# Verified model of the backend's in-memory cores

A Dafny model of the algorithms and state machines of this NestJS backend that keep their state in
memory: the rate limiter, the two-level cache and its keys, the compiler from Zod schemas to OpenAPI
schemas, keyset pagination with its cursors, webhook delivery with retries, the audit hash chain, staking
positions with cached views, and drift alerts. `dafny verify dfyconfig.toml` checks the whole project.

Each component has a module with its state, its operations as methods in the source's own form, and the
function of the old state that each method is proved to compute. Properties that span operations and runs
are lemmas about those functions, in the same module or in the `...Theorems` module beside it. The
`...Answers` modules, `ZodMeaning` and `ClientWalks` say what each main operation answers in terms of its
inputs and of what is stored, without the functions of the model that compute it.

- **Rate limiter** (`RateLimitTypes`, `TokenBucket`, `SlidingWindow`, `Metrics`, `RateLimitService`,
  `RateLimitTheorems`, `RateLimitDecisions`, `RateLimitAnswers`). Tokens are scaled by the window, so that
  everything is an integer: the capacity is `limit * windowMs`, a millisecond refills `limit`, a call costs
  `windowMs`. The token bucket is the greedy policy that never looks at tokens, the sliding window is the rule over the
  history of a key, and both keep their bounds, waiting times and answers over whole runs, pruned or not. A
  request is decided as if each of its limits were asked alone.
- **Two-level cache** (`OrderedMap`, `MemoryCache`, `CacheService`, `CacheTheorems`, `CacheAnswers`, `Json`,
  `CacheKey`). JavaScript's `Map` order is modelled exactly. The cache refines one flat map whose entries
  expire, and the memory level is least recently used for `wrap`. Two keys are equal exactly when the calls are, up to
  the order of object keys and what printing erases; the proof inverts the printed JSON with a parser for
  all of RFC 8259.
- **Zod to OpenAPI** (`ZodToOpenApi`, `ZodTheorems`, `ZodMeaning`). Both schema languages have an acceptance
  semantics over JSON values. The compiled schema accepts what the Zod schema accepts, on a smaller fragment
  exactly; for every construct outside the fragment a lemma says when values are lost.
- **Pagination** (`CursorCodec`, `CursorPagination`, `PaginationTheorems`, `PaginationNulls`, `ClientWalks`).
  Cursors go through JSON, UTF-8 and base64url and come back. A client that follows the cursors through a
  table that changes in between is shown no row twice and every lasting row once, and comes to an end.
- **Webhook delivery** (`Delivery`, `DeliveryTheorems`, `DeliveryAnswers`, `SplitDelivery`). First the services'
  public operations are atomic steps with an arbitrary answer of the transport; an invariant of all runs gives the
  attempt bounds, the backoff, finality, referential integrity, and sweeps that are total and drain. Then
  publications and sweeps are split at every `await`: they take turns with each other and with everything
  else. Over all interleaved runs each of those properties holds or is given its exact condition, with a
  run from the start that shows the failure. A publication or sweep with nothing in between is the atomic one.
- **Audit chain** (`AuditChain`, `AuditAnswers`), **staking** (`Staking`, `StakingAnswers`) and **drift**
  (`Drift`, `DriftAnswers`).

JavaScript numbers are exact: integers, reals, or decimals without rounding in JSON. Time is an argument.
Random identifiers, the transport's answers, the database's answers, producers of cached values and the
functions that users pass to Zod are parameters.

## Where the code and its descriptions part

The model follows the code; each of these has a lemma with the exact condition and, where it depends on the
state, a run from the start that reaches it.

- `src/cache/backends/memory-cache.ts:9-15` promises least-recently-used eviction. `set` on a present key
  neither refreshes it nor spares the head of a full map (`CacheTheorems.SetIsLruIff`, `StoredAgainStaysOld`).
- The two levels answer like one flat map if and only if no `set` without a positive time to live comes where
  a live value is: then the memory level drops the value while the second level keeps the old one
  (`CacheTheorems.RunRefinesIff`, `SetRefinesIff`, `ReplacedValueReturns`).
- Keys tell calls apart up to what printing erases: `undefined` inside arrays is null, properties that are
  `undefined` go, NaN and the infinities are one, and a single `undefined` is no argument
  (`CacheKey.KeyExact`).
- The key of an endpoint limit does not name the HTTP method: where two policies cover one path, requests
  renew each other's token bucket and the bound is lost (`RateLimitTheorems.AcceptedObeyEndpointBound`,
  `RateLimitDecisions.TwoPoliciesExceed`).
- Pruning is visible for windows longer than an hour and a millisecond
  (`TokenBucket.PruningInvisibleIff`, `SlidingWindow.PruningInvisibleIff`).
- `retryAfterMs` of the sliding window can be too short after the limit of a key's policy was lowered
  (`SlidingWindow.RetryIsLeastIff`, `LoweredLimitAnnouncesTooSoon`); it is exact for a key that never had a
  larger limit (`SlidingWindow.RetryIsLeastOnRuns`).
- The compiler loses null under nullable enums and unions, values that two branches of a union accept,
  strings with surrogate pairs under a least length above 1, null literals, numeric enums with reverse
  mappings, and missing properties whose optional is not outermost (`ZodTheorems.NullableKeptIff`,
  `NullableTakesNullIff`, `OverlapIsLost`, `MinLengthKeptIff`, `LiteralKeptIff`, `NativeEnumKeptIff`,
  `PropertyKeptIff`).
- The first page of a walk sorts without the id, so rows can be repeated or skipped exactly when another
  row shares the sort value at which it stops (`PaginationTheorems.FirstPageContinuesIff`). Rows without a
  sort value are shown on the first page or never (`PaginationNulls.FixedTableShownExactly`).
- An acknowledgement holds for good if and only if no publication or sweep under way still holds the pair
  (`SplitDelivery.AcknowledgementHoldsIff`, `AcknowledgementIsUndone`).
- A deletion holds for a pair if and only if no publication or sweep under way still holds the pair. Otherwise
  a record can outlive its subscription, and then sweeps throw (`SplitDelivery.DeletionHoldsIff`, `OrphanIff`,
  `OrphanMakesSweepsThrow`).
- The bound of six attempts and the backoff hold until a sweep starts over a pair that an earlier publication
  or sweep still holds; then some order of the turns breaks them (`SplitDelivery.OverlapBreaksIff`,
  `SevenAttempts`).
- Audit texts are concatenated without separators, so a character that moves from one field to the next
  is not reported (`AuditChain.SilentChange`).
- A withdrawal can be refused although an unlocked position could pay it (`Staking.RefusedThoughPayableIff`,
  `ShorterTermIsRefused`).
- Assets are judged before rounding and the portfolio after it; the portfolio's status covers its assets
  if and only if no threshold that counts is rounded down (`Drift.StatusCoversIff`).

## Model

| member | source | states |
|---|---|---|
| RateLimitTypes.CeilDivLeast | src/rate-limit/rate-limit.algorithms.ts:37-41 | The rounding up in the waiting times is the least integer that reaches the amount. |
| TokenBucket.BucketState.Take | src/rate-limit/rate-limit.algorithms.ts:29-49 | A call refills, takes a token if there is one and answers, as one step of the bucket. |
| TokenBucket.TokenBucketRateLimiter.Consume | src/rate-limit/rate-limit.algorithms.ts:13-50 | A call changes the bucket of its key alone; a missing bucket or one of another policy is made anew and full. |
| TokenBucket.TokenBucketRateLimiter.PruneIdle | src/rate-limit/rate-limit.algorithms.ts:52-56 | The loop that deletes while it walks drops exactly the buckets last used before the cutoff. |
| TokenBucket.GreedyExact | src/rate-limit/rate-limit.algorithms.ts:13-35 | After any run over any keys, policies and clock, the level is the minimum over all calls since the bucket was made of limit plus refill minus admissions since that call, and a call is admitted iff admitting it keeps every interval within its budget. |
| TokenBucket.FitsOnMonotoneClock | src/rate-limit/rate-limit.algorithms.ts:30-35 | While the clock does not step back, the budget of an interval is limit plus its length times the rate. |
| TokenBucket.RetryIsLeast | src/rate-limit/rate-limit.algorithms.ts:37-39 | After a denial a later call is admitted iff it comes at now + retryAfterMs or later. |
| TokenBucket.HammeringDoesNotPostpone | src/rate-limit/rate-limit.algorithms.ts:29-39 | Any number of denied calls in between do not move the moment first announced, not even by a millisecond. |
| TokenBucket.ResetIsFirstFull | src/rate-limit/rate-limit.algorithms.ts:40-41 | resetAt is the first moment at which the bucket, left alone, is full. |
| TokenBucket.RemainingIsExact | src/rate-limit/rate-limit.algorithms.ts:46-46 | remaining is exactly how many more calls the same instant admits. |
| TokenBucket.WaitingTimesOnRuns | src/rate-limit/rate-limit.algorithms.ts:13-50 | On every run, whatever follows a denied call (other keys, prune steps, calls of the key that are too early and all denied), a call is admitted iff it comes at now + retryAfterMs or later; resetAt is the first full moment. |
| TokenBucket.PruningIsInvisible | src/rate-limit/rate-limit.algorithms.ts:52-56 | With windows of at most MAX_IDLE_MS + 1, a limiter pruned at any moments answers like one never pruned. |
| TokenBucket.PruningInvisibleIff | src/rate-limit/rate-limit.service.ts:40-71 | For each policy, pruning is invisible on all runs iff its window is at most MAX_IDLE_MS + 1. |
| TokenBucket.EveryStretchIsBounded | src/rate-limit/rate-limit.algorithms.ts:29-35 | Over any stretch of any run a key under one policy is admitted at most limit + elapsed * limit / windowMs times, whatever other keys do and whatever is pruned. |
| SlidingWindow.WindowState.Take | src/rate-limit/rate-limit.algorithms.ts:72-89 | A call drops the timestamps outside the window, adds its own if it is admitted, and answers, as one step of the window. |
| SlidingWindow.SlidingWindowRateLimiter.Consume | src/rate-limit/rate-limit.algorithms.ts:71-90 | A call changes the window of its key alone. |
| SlidingWindow.SlidingWindowRateLimiter.PruneIdle | src/rate-limit/rate-limit.algorithms.ts:92-96 | The loop that deletes while it walks drops exactly the windows last seen before the cutoff. |
| SlidingWindow.RunMatches | src/rate-limit/rate-limit.algorithms.ts:71-79 | After any run the kept timestamps of a key are, in order, its admissions since it was last pruned that lie inside the window of every later call. |
| SlidingWindow.HistoryExact | src/rate-limit/rate-limit.algorithms.ts:77-89 | The next call of any key is decided by its history since it was last pruned. |
| SlidingWindow.WholeHistoryDecides | src/rate-limit/rate-limit.algorithms.ts:71-96 | With windows of at most MAX_IDLE_MS + 1, a call after a run with prune steps is decided by the whole history of its key, as if nothing had been pruned. |
| SlidingWindow.EverySpanIsBounded | src/rate-limit/rate-limit.algorithms.ts:72-79 | A key under one policy is admitted at most limit times in any half-open span as long as the window. |
| SlidingWindow.RetryIsLeastIff | src/rate-limit/rate-limit.algorithms.ts:81-88 | After a denial, now + retryAfterMs is the earliest admissible time iff, of the timestamps inside the window before the call, the oldest is as old as the limit-th most recent one; at most limit timestamps suffice. |
| SlidingWindow.HammeringDoesNotPostpone | src/rate-limit/rate-limit.algorithms.ts:71-90 | Denied calls in between do not move the earliest admissible time of a key under one policy. |
| SlidingWindow.LoweredLimitAnnouncesTooSoon | src/rate-limit/rate-limit.algorithms.ts:81-88 | A run from the empty limiter with a limit lowered from 2 to 1 announces a wait of 8, and the call after 8 is denied. |
| SlidingWindow.RetryIsLeastOnRuns | src/rate-limit/rate-limit.algorithms.ts:71-90 | On every run, a key that never had a larger limit and is denied at now is next admitted at now + retryAfterMs and no earlier, whatever other keys, prune steps and too early calls of its own come in between. |
| SlidingWindow.RemainingIsExact | src/rate-limit/rate-limit.algorithms.ts:77-86 | remaining is exactly how many more calls the same instant admits. |
| SlidingWindow.ResetIsFirstLeave | src/rate-limit/rate-limit.algorithms.ts:81-87 | resetAt is the first moment at which one of the admissions that count now no longer counts. |
| SlidingWindow.DecidedByAdmissions | src/rate-limit/rate-limit.algorithms.ts:72-78 | On any run, pruned or not, a call is admitted iff fewer than limit admissions lie in its window. |
| SlidingWindow.PruningIsInvisible | src/rate-limit/rate-limit.algorithms.ts:92-96 | With windows of at most MAX_IDLE_MS + 1, a limiter pruned at any moments answers like one never pruned. |
| SlidingWindow.PruningInvisibleIff | src/rate-limit/rate-limit.service.ts:40-71 | For each policy, pruning is invisible on all runs iff its window is at most MAX_IDLE_MS + 1. |
| Metrics.LabelsEqualIff | src/monitoring/metrics.service.ts:233-238 | The comparison that looks at the keys of one side only is equality of the label sets. |
| Metrics.MetricsService.RegisterMetric | src/monitoring/metrics.service.ts:181-185 | A metric is added only if its name is new. |
| Metrics.MetricsService.IncrementCounter | src/monitoring/metrics.service.ts:187-197 | The value at the given labels grows by the amount, made at 0 if missing; an unknown metric changes nothing. |
| Metrics.MetricsService.SetGauge | src/monitoring/metrics.service.ts:199-209 | The value at the given labels is set, made if missing. |
| Metrics.MetricsService.GetMetricValue | src/monitoring/metrics.service.ts:294-299 | The value at the given labels, or 0. |
| Metrics.ChangeSeen | src/monitoring/metrics.service.ts:187-231 | A change is seen at exactly the labels it names and nowhere else. |
| Metrics.ChangeKeepsDistinct | src/monitoring/metrics.service.ts:187-197 | A change keeps the label sets of a metric pairwise distinct. |
| RateLimitService.Service.Apply | src/rate-limit/rate-limit.service.ts:159-180 | The limiter of the policy's algorithm answers, and the tallies and counters of the scope follow. |
| RateLimitService.Service.Bypass | src/rate-limit/rate-limit.service.ts:182-193 | A bypass is counted once in both books and lets the request through. |
| RateLimitService.Service.Check | src/rate-limit/rate-limit.service.ts:80-126 | A request is bypassed, or every limit of its plan is applied, denied or not, and the outcome is counted once. |
| RateLimitService.Service.Tick | src/rate-limit/rate-limit.service.ts:66-71 | The timer prunes both limiters at now - MAX_IDLE_MS and sets the gauge of active keys. |
| RateLimitAnswers.BypassExact | src/rate-limit/rate-limit.service.ts:86-91 | A request is bypassed iff the service is disabled, the call skips the limits, or its address, given user id or given API key is listed; then it is let through and no bucket or window changes. |
| RateLimitAnswers.BypassCounted | src/rate-limit/rate-limit.service.ts:182-193 | The counter of bypasses grows by one under the reason of the bypass, and by nothing under other labels or for other requests. |
| RateLimitAnswers.LimitsExact | src/rate-limit/rate-limit.service.ts:93-113 | The limits of a request are that of its address, that of its user if it has one, and that of one endpoint policy: the override with its defaults, or the first configured policy whose method and path, or start of the path, fit the path without its query. |
| RateLimitAnswers.LimitsInOrder | src/rate-limit/rate-limit.service.ts:93-113 | They are asked in the order address, user, endpoint, one of each at most. |
| RateLimitDecisions.RequestDecided | src/rate-limit/rate-limit.service.ts:80-126 | A request that is not bypassed is accepted iff each of its limits, asked alone in the state the request finds, admits it; a refusal reports the first limit that refuses, an acceptance the first with the smallest remaining share. |
| RateLimitDecisions.TimerIsInvisible | src/rate-limit/rate-limit.service.ts:66-71 | While all windows are at most MAX_IDLE_MS + 1 long, a request after any run gets the decision it would get had the timer never pruned. |
| RateLimitTheorems.BooksAlwaysAgree | src/rate-limit/rate-limit.service.ts:80-193 | In every reachable state total = allowed + rejected + bypassed, IP checks = total - bypassed, the tallies equal the counters, and the label sets are pairwise distinct. |
| RateLimitTheorems.RunOnBuckets | src/rate-limit/rate-limit.service.ts:159-180 | Every accepted request of a run is an admission at each token bucket it uses. |
| RateLimitTheorems.RunOnWindows | src/rate-limit/rate-limit.service.ts:159-180 | Every accepted request of a run is an admission at each sliding window it uses. |
| RateLimitTheorems.ScopeKeysHaveOnePolicy | src/rate-limit/rate-limit.service.ts:94-112 | Keys of the IP and user scopes never meet keys of another scope, so each has one policy. |
| RateLimitTheorems.AcceptedObeyBothBounds | src/rate-limit/rate-limit.service.ts:93-126 | Over any stretch of any run the accepted requests keep within the IP policy for each address and within the user policy for each user at once, whichever algorithms they use. |
| RateLimitTheorems.AcceptedObeyEndpointBound | src/rate-limit/rate-limit.service.ts:100-113 | Over any stretch of any run the requests accepted under one endpoint key keep within their policy, if the requests of the run that fall under the key fall under one policy. |
| RateLimitDecisions.TwoPoliciesExceed | src/rate-limit/rate-limit.service.ts:104-111 | With a policy for each of two methods on one path, for every number there is a run from the start that accepts as many requests at one moment under a policy of one in a second. |
| RateLimitTheorems.RequestUsesItsKeys | src/rate-limit/rate-limit.service.ts:93-98 | Every request is subject to the limit of its address, and of its user if it has one. |
| MemoryCache.MemoryCacheBackend.Get | src/cache/backends/memory-cache.ts:26-38 | A live entry is returned and becomes the newest, an expired one is dropped. |
| MemoryCache.MemoryCacheBackend.GetWithTtl | src/cache/backends/memory-cache.ts:40-54 | Like get, with the remaining time to live. |
| MemoryCache.MemoryCacheBackend.EvictExpired | src/cache/backends/memory-cache.ts:89-94 | Exactly the expired entries go; the others keep their order. |
| MemoryCache.MemoryCacheBackend.Set | src/cache/backends/memory-cache.ts:56-64 | Expired entries go, then the eviction loop drops the oldest until there is room, also for a key that is present; the key keeps its place if it is still there. |
| MemoryCache.MemoryCacheBackend.InvalidateByPrefix | src/cache/backends/memory-cache.ts:70-79 | Exactly the keys with the prefix go, and they are counted. |
| CacheService.Service.Get | src/cache/cache.service.ts:67-88 | Memory answers first; a hit below is promoted with its remaining time to live. |
| CacheService.Service.Set | src/cache/cache.service.ts:90-97 | Both levels store the value with the same time to live. |
| CacheService.Service.Del | src/cache/cache.service.ts:99-103 | Both levels forget the key. |
| CacheService.Service.Wrap | src/cache/cache.service.ts:105-117 | A cached value is returned; otherwise the produced one, which is stored unless it is undefined or null. |
| CacheService.Service.InvalidateByPrefix | src/cache/cache.service.ts:119-126 | Both levels drop the keys with the prefix, and the count is their sum. |
| CacheService.Service.Clear | src/cache/cache.service.ts:128-134 | Both levels are emptied. |
| CacheAnswers.InvalidateExact | src/cache/cache.service.ts:119-126 | After a prefix is invalidated with the second level online, no key that starts with it is found at any time, and any other key is found as before. |
| CacheAnswers.InvalidateCounts | src/cache/backends/memory-cache.ts:70-79 | The count is the number of keys in memory and of live keys below that start with the prefix. |
| CacheAnswers.ClassClearedExactly | src/cache/cache.decorators.ts:74-76 | Clearing a class makes every cached call of its methods miss and leaves what is found for the calls of every other class. |
| CacheAnswers.PromotedAsLong | src/cache/cache.service.ts:76-83 | A value found below becomes the newest entry of the memory level and expires there when it would have expired below. |
| CacheAnswers.SwitchedOff | src/cache/cache.service.ts:67-134 | A disabled cache finds nothing, stores nothing and clears nothing. |
| CacheAnswers.StoredForItsTime | src/cache/cache.service.ts:90-97 | A stored value is found for exactly its time to live, or the default one, when the second level is off. |
| CacheAnswers.StatsMove | src/cache/cache.service.ts:67-134 | Every read counts one hit or one miss, as it finds a value or not; stores and invalidations are counted each. |
| CacheTheorems.CacheRefinesFlatMap | src/cache/cache.service.ts:67-134 | With the second level online, every run in which no set without a positive time to live comes where a live value is returns exactly what one flat map with expiring entries returns, whatever memory evicts. |
| CacheTheorems.RunRefinesIff | src/cache/cache.service.ts:67-134 | All first parts of a run, with any get right after them, return what the flat map returns iff no set without a positive time to live comes where a live value is. |
| CacheTheorems.SetRefinesIff | src/cache/cache.service.ts:90-97 | The get after a set agrees with the flat map iff the time to live is positive or the key had no live value. |
| CacheTheorems.ReplacedValueReturns | src/cache/cache.service.ts:90-97 | A run from the start where a value set without time to live leaves the one it replaced to be returned. |
| CacheTheorems.RecencyExact | src/cache/backends/memory-cache.ts:9-15 | The specification of recency lists exactly the requested keys, once each, by their last requests. |
| CacheTheorems.KeysAreMostRecent | src/cache/backends/memory-cache.ts:26-64 | The keys in memory are the most recently requested distinct keys, as many as fit, oldest first. |
| CacheTheorems.LruOverRuns | src/cache/cache.service.ts:105-117 | With the second level off and nothing expiring, that holds after any run of wrap calls, and the hits are the requests that found their key there. |
| CacheTheorems.LargerIsBetter | src/cache/backends/memory-cache.ts:20-20 | Of two caches that see the same wrap calls, second level off and nothing expiring, the larger one holds a superset of the keys and has at least as many hits. |
| CacheTheorems.SetIsLruIff | src/cache/backends/memory-cache.ts:56-64 | After a set the keys are the most recently used ones iff the key was absent, was the newest of a map with room, or was the oldest of a full one. |
| CacheTheorems.StoredAgainStaysOld | src/cache/backends/memory-cache.ts:56-64 | A run from the start where a key stored last is the first in line for eviction. |
| Json.NumberRoundTrip | src/cache/cache-key.ts:42-42 | Every number is read back from its printed text, whichever notation it was printed in. |
| Json.CharsRoundTrip | src/cache/cache-key.ts:42-42 | Every string, lone surrogates included, is read back from its escaped text. |
| Json.ValueRoundTrip | src/cache/cache-key.ts:42-42 | Parsing reads back any printed value and stops where it ended. |
| Json.PrintIsPrefixFree | src/cache/cache.decorators.ts:23-23 | Two texts that go on after a printed value in the same way hold the same value. |
| CacheKey.SortedUnique | src/cache/cache-key.ts:26-28 | A sorted list of members is determined by its contents. |
| CacheKey.CanonicalExact | src/cache/cache-key.ts:23-30 | The printed order forgets the order in which keys were given, and nothing else, with integer-like keys moved first by the engine. |
| CacheKey.NormalFaithful | src/cache/cache-key.ts:12-34 | Two values with nothing left to erase normalise alike iff they are equal up to the order of object keys. |
| CacheKey.KeyFaithful | src/cache/cache.decorators.ts:16-25 | Over null, booleans, finite numbers, strings, dates, arrays and objects, two calls get the same key iff they name the same class and method with arguments equal up to the order of object keys. |
| CacheKey.KeyExact | src/cache/cache.decorators.ts:16-25 | For all arguments with distinct object keys, two keys are equal iff class and method are and the arguments are equal up to the order of object keys after erasing (undefined to null in arrays, undefined properties dropped, non-finite numbers made one), or both lists are empty or a single undefined. |
| CacheKey.ClassPrefixExact | src/cache/cache.decorators.ts:74-76 | The prefix that is cleared covers every key of the class and of no other class. |
| ZodToOpenApi.StringKeywords | src/validation/openapi/zod-to-openapi.ts:59-73 | The loop over the checks leaves each keyword with the last check of its kind. |
| ZodToOpenApi.NumberKeywords | src/validation/openapi/zod-to-openapi.ts:75-85 | The loop leaves each bound with the last check of its kind, and the type is integer iff some check asks for it. |
| ZodToOpenApi.ShapeKeywords | src/validation/openapi/zod-to-openapi.ts:141-150 | The loop over the shape compiles every property and requires those that are not outermost optional or default. |
| ZodToOpenApi.ZodToOpenApiSchema | src/validation/openapi/zod-to-openapi.ts:29-180 | The compiler as written computes the translation that the theorems are about. |
| ZodTheorems.CompiledAccepts | src/validation/openapi/zod-to-openapi.ts:29-180 | Every JSON value that a Zod schema of the fragment accepts is accepted by the compiled schema. |
| ZodTheorems.ZodAcceptsCompiled | src/validation/openapi/zod-to-openapi.ts:29-180 | What a lossless Zod schema rejects, the compiled schema rejects. |
| ZodTheorems.MeaningKept | src/validation/openapi/zod-to-openapi.ts:29-180 | On schemas in both fragments the two accept exactly the same values. |
| ZodMeaning.CompiledMeaning | src/validation/openapi/zod-to-openapi.ts:29-180 | For every Zod schema, what its compiled form accepts, said without the compiler: last checks by position, enumerations, required and known properties, items, record values, exactly one branch, null where nullable. |
| ZodMeaning.DefaultExact | src/validation/openapi/zod-to-openapi.ts:47-50 | The compiled schema names a default iff a default is outermost among the wrappers, and then its value. |
| ZodTheorems.StringKeywordsExact | src/validation/openapi/zod-to-openapi.ts:59-73 | Each keyword of a string schema, the format included, is written by the last check of its kind, by position, and a kind without a check writes none. |
| ZodTheorems.NumberKeywordsExact | src/validation/openapi/zod-to-openapi.ts:75-85 | Each bound of a number schema is that of the last check of its kind, and the type is integer iff some check asks for it. |
| ZodTheorems.LastFormatRejects | src/validation/openapi/zod-to-openapi.ts:67-70 | A text without the format of the last format check is rejected. |
| ZodTheorems.TextExact | src/validation/openapi/zod-to-openapi.ts:59-73 | A compiled string schema takes a text iff the last check of each kind does. |
| ZodTheorems.NumberExact | src/validation/openapi/zod-to-openapi.ts:75-85 | A compiled number schema takes a number iff the last check of each kind does. |
| ZodTheorems.ApartIsDisjoint | src/validation/openapi/zod-to-openapi.ts:170-177 | Branches told apart by type, enumeration or a required property share no value. |
| ZodTheorems.NullExact | src/validation/openapi/zod-to-openapi.ts:42-45 | Whether a schema accepts null can be read off its keywords. |
| ZodTheorems.RequiredExact | src/validation/openapi/zod-to-openapi.ts:145-150 | A name is required iff some property of that name is neither outermost optional nor default. |
| ZodTheorems.MinLengthKeptIff | src/validation/openapi/zod-to-openapi.ts:64-64 | A least length keeps all values iff it is at most 1, as Zod counts code units and the schema characters. |
| ZodTheorems.NullableKeptIff | src/validation/openapi/zod-to-openapi.ts:42-45 | A nullable schema keeps its values iff the compiled schema takes null. |
| ZodTheorems.NullableTakesNullIff | src/validation/openapi/zod-to-openapi.ts:42-45 | Null is lost under enums and non-null literals, and under unions unless exactly one branch takes it. |
| ZodTheorems.OverlapIsLost | src/validation/openapi/zod-to-openapi.ts:170-177 | A union of lossless branches loses exactly the values that two branches accept. |
| ZodTheorems.OverlapExample | src/validation/openapi/zod-to-openapi.ts:170-177 | A union of string and one string literal rejects that literal. |
| ZodTheorems.NativeEnumKeptIff | src/validation/openapi/zod-to-openapi.ts:108-116 | A native enum keeps its values iff they all have the type of the first one listed. |
| ZodTheorems.LiteralKeptIff | src/validation/openapi/zod-to-openapi.ts:118-126 | Of the literals only null is lost. |
| ZodTheorems.PropertyKeptIff | src/validation/openapi/zod-to-openapi.ts:145-150 | A property is kept iff it rejects undefined or its optional or default is outermost. |
| CursorCodec.Utf8RoundTripIff | src/pagination/helpers/cursor.helper.ts:12-12 | UTF-8 gives a text back iff it has no lone surrogate. |
| CursorCodec.Base64RoundTrip | src/pagination/helpers/cursor.helper.ts:12-27 | Base64url gives the bytes back and never writes the dot. |
| CursorCodec.PrintWellFormed | src/pagination/helpers/cursor.helper.ts:8-11 | Printed JSON has no lone surrogate, whatever the strings inside hold. |
| CursorCodec.CursorRoundTrip | src/pagination/helpers/cursor.helper.ts:7-43 | Decoding an encoded cursor gives back the sort value and the id, for all JSON values. |
| CursorCodec.CursorIsInjective | src/pagination/helpers/cursor.helper.ts:7-14 | Two data with the same cursor are equal. |
| CursorCodec.FormatExact | src/pagination/helpers/cursor.helper.ts:21-24 | A text has the format of a cursor iff it starts with the version and has no other dot. |
| CursorCodec.Base64Exact | src/pagination/helpers/cursor.helper.ts:12-13 | Three bytes are written as the four base-64 digits of one number, and one or two bytes at the end as two or three digits. |
| CursorCodec.AlphabetExact | src/pagination/helpers/cursor.helper.ts:12-12 | The digits are A to Z, a to z, 0 to 9, minus and underscore, in this order. |
| CursorCodec.ForeignCursor | src/pagination/helpers/cursor.helper.ts:26-42 | Of the well-written texts of any JSON value, null cannot be decoded, every value but an object with both names is a bad payload, and of members with one name the last counts. |
| CursorPagination.ApplySorting | src/pagination/helpers/pagination-query-builder.helper.ts:13-20 | The order becomes the sort field alone. |
| CursorPagination.ApplyCursorPagination | src/pagination/helpers/pagination-query-builder.helper.ts:22-45 | A readable cursor adds the condition and sets order and limit; an unreadable one changes nothing. |
| CursorPagination.ExecuteCursorQuery | src/pagination/helpers/pagination-query-builder.helper.ts:47-63 | The row beyond the page is popped and tells that there is more. |
| CursorPagination.FindAllCursor | src/ai-triggers/ai-triggers.service.ts:49-72 | First and later pages are answered with the rows shown, the next cursor and whether there is more. |
| ClientWalks.RefusedIff | src/pagination/helpers/cursor.helper.ts:16-42 | A request is refused iff it carries a cursor that cannot be decoded, with the reason. |
| ClientWalks.FirstResponseExact | src/ai-triggers/ai-triggers.service.ts:57-72 | Without a cursor the response holds as many rows of the table as fit, in the order of their sort values, none of them after a row left out; hasNext iff the table has more; then the cursor decodes to the last row shown. |
| ClientWalks.LaterResponseExact | src/ai-triggers/ai-triggers.service.ts:49-72 | With a cursor the response holds as many as fit of the rows after its position by sort value and id, in that order, none after a row left out; hasNext iff there are more; then the cursor decodes to the last row shown. |
| ClientWalks.ClientWalkIsWalk | src/ai-triggers/ai-triggers.service.ts:49-72 | For a client that follows the cursors no call is refused, and what it is shown are the pages of the answers of the database. |
| ClientWalks.NoItemTwice | src/ai-triggers/ai-triggers.service.ts:49-72 | A client that follows the cursors is shown no id twice and sort values in order, whatever is inserted or deleted between the calls. |
| ClientWalks.PresentItemShownOnce | src/ai-triggers/ai-triggers.service.ts:49-72 | A row present at every call of a walk that ends with hasNext false is among the items exactly once. |
| ClientWalks.FixedTableShownToClient | src/ai-triggers/ai-triggers.service.ts:49-72 | On a table that does not change, the items of an ended walk are its rows, each once. |
| ClientWalks.ClientWalkIsShort | src/ai-triggers/ai-triggers.service.ts:60-72 | A client makes at most one call more than there are full pages of rows. |
| ClientWalks.NullsShownToClient | src/ai-triggers/ai-triggers.service.ts:49-72 | With null sort values the items of an ended walk over a fixed table are those of the first response and, if there is a second call and the first stops at a sort value, all rows with one. |
| PaginationTheorems.CursorNamesLastRow | src/pagination/helpers/pagination.helper.ts:20-51 | The request with the cursor of a page asks for the rows after its last row. |
| PaginationTheorems.NoRowTwice | src/ai-triggers/ai-triggers.service.ts:49-72 | A walk shows no id twice and follows the order, whatever is inserted or deleted between the pages. |
| PaginationTheorems.PresentRowShownOnce | src/ai-triggers/ai-triggers.service.ts:49-72 | A row present throughout a walk that has ended was shown exactly once. |
| PaginationTheorems.WalkIsShort | src/ai-triggers/ai-triggers.service.ts:60-65 | There are never more full pages than rows to fill them, so a walk over finitely many rows ends. |
| PaginationTheorems.FixedTableShownWhole | src/ai-triggers/ai-triggers.service.ts:49-72 | On a table that does not change, an ended walk showed every row, each once. |
| PaginationTheorems.FirstPageContinuesIff | src/ai-triggers/ai-triggers.service.ts:57-60 | Whatever order ties get, the second page goes on where the first stopped iff no other row has the sort value of its last row. |
| PaginationTheorems.NullsNeverFollow | src/pagination/helpers/pagination-query-builder.helper.ts:34-41 | Rows without a sort value are on no later page, and nothing follows such a row. |
| PaginationNulls.FixedTableShownExactly | src/ai-triggers/ai-triggers.service.ts:49-72 | An ended walk over a fixed table with null sort values shows, each once, all rows if the first page is the last, else the rows of the first page and, if that stops at a sort value, all rows with one. |
| Delivery.MatchesFilter | src/subscriptions/subscription.service.ts:196-221 | An event matches iff its type is listed, its severity is high enough and every predicate holds of its metadata. |
| Delivery.SubscriptionService.CreateSubscription | src/subscriptions/subscription.service.ts:47-62 | A subscription is added, active, under a fresh identifier. |
| Delivery.SubscriptionService.UpdateSubscription | src/subscriptions/subscription.service.ts:114-131 | Only the owner changes the fields that are named. |
| Delivery.SubscriptionService.DeleteSubscription | src/subscriptions/subscription.service.ts:133-141 | Only the owner deletes, and exactly the records of the subscription go with it. |
| Delivery.SubscriptionService.RecordDeliveryAttempt | src/subscriptions/subscription.service.ts:263-305 | One attempt makes or changes the record of its pair alone and sets or clears the next retry. |
| Delivery.SubscriptionService.AcknowledgeEvents | src/subscriptions/subscription.service.ts:307-334 | Exactly the named records that exist become acknowledged; a name is skipped iff it has no record, its record was acknowledged before, or the name came earlier in the list, and the others are counted. |
| Delivery.WebhookService.DeliverToSubscription | src/webhook/webhook.service.ts:197-233 | A delivery is recorded as delivered unless a callback was tried and failed. |
| Delivery.WebhookService.PublishAndDeliver | src/webhook/webhook.service.ts:65-81 | The event is kept and delivered to the active subscriptions that want it, in order. |
| Delivery.WebhookService.SimulateDelivery | src/webhook/webhook.service.ts:83-90 | The event is kept even when the subscription does not exist. |
| Delivery.WebhookService.RetryDueDeliveries | src/webhook/webhook.service.ts:92-115 | The sweep walks over a copy of the records, passes over those without an event and throws on a missing subscription. |
| DeliveryAnswers.PublishedExact | src/webhook/webhook.service.ts:65-81 | After any run a new event is attempted once, at once, with exactly the active subscriptions that list its kind, whose least severity it reaches (low, medium, high, critical) and whose predicates its metadata satisfies; delivered unless a callback fails; answered in the order of subscriptions; no other pair changes. |
| DeliveryAnswers.SeverityNeverLoses | src/subscriptions/subscription.service.ts:203-209 | Raising the severity of an event loses none of the subscriptions it is attempted with. |
| DeliveryAnswers.SimulatedExact | src/webhook/webhook.service.ts:83-90 | A simulated delivery is recorded as delivered whatever the callback; without the subscription only the event is kept. |
| DeliveryAnswers.SweptExact | src/webhook/webhook.service.ts:92-115 | A sweep after any run attempts each due record once more: delivered unless a callback fails, else retrying after 1, 2, 4, 8 and 16 seconds, and failed at the sixth attempt; other records stay. |
| DeliveryAnswers.SweepToldExact | src/webhook/webhook.service.ts:92-115 | A sweep answers with exactly the records it attempted, in the order of the records. |
| DeliveryAnswers.UpdatedExact | src/subscriptions/subscription.service.ts:114-131 | An update changes the named fields of the subscription of its owner and nothing else. |
| DeliveryAnswers.DeletedExact | src/subscriptions/subscription.service.ts:133-141 | A deletion by the owner takes the subscription and exactly its records. |
| DeliveryAnswers.AcknowledgedExact | src/subscriptions/subscription.service.ts:307-334 | An acknowledgement by the owner closes exactly the records of the events named and keeps their times and counts. |
| DeliveryAnswers.SwitchedOffGetsNothing | src/webhook/webhook.service.ts:72-78 | Once the owner has switched a subscription off, a new event is not attempted with it. |
| DeliveryTheorems.KeyParts | src/subscriptions/subscription.service.ts:268-268 | A key names one pair of subscription and event. |
| DeliveryTheorems.AttemptsBounded | src/subscriptions/subscription.service.ts:263-305 | In every run of atomic operations a pair is attempted at most 6 times, attempt k at least 1000 * (2^(k-1) - 1) ms after the first. |
| DeliveryTheorems.RecordsInOrder | src/subscriptions/subscription.service.ts:263-305 | In every run of atomic operations each record has its subscription and event, counts its attempts, and is retrying iff its next retry is set, with at most 5 attempts; failed means 6. |
| DeliveryTheorems.FinalStays | src/webhook/webhook.service.ts:92-115 | No atomic operation attempts a delivered, failed, acknowledged or deleted pair again. |
| DeliveryTheorems.FinalForever | src/webhook/webhook.service.ts:92-115 | A pair that is final at some point of a run of atomic operations has the same attempts at the end. |
| DeliveryTheorems.AcknowledgedStays | src/subscriptions/subscription.service.ts:317-331 | Under every atomic operation an acknowledged record stays acknowledged as long as it exists. |
| DeliveryTheorems.SweepExact | src/webhook/webhook.service.ts:92-115 | A sweep never throws, attempts every due record once and leaves everything else as it was. |
| DeliveryTheorems.FiveSweepsDrain | src/webhook/webhook.service.ts:92-115 | After any run, five sweeps with every retry due leave no retrying record, whatever the transport answers. |
| DeliveryTheorems.SweepThrowsIff | src/webhook/webhook.service.ts:105-111 | In any state a sweep throws iff it finds a due record of a known event whose subscription is gone. |
| SplitDelivery.RecordsAreScheduled | src/subscriptions/subscription.service.ts:263-305 | In every interleaved run a record is retrying iff its next retry is set, then with at most 5 attempts and the exact delay, and belongs to a published event. |
| SplitDelivery.AcknowledgedChangesIff | src/webhook/webhook.service.ts:197-233 | An acknowledged record changes, and loses its acknowledgement, at a step of a run iff the step writes a delivery of its pair. |
| SplitDelivery.FinalHoldsIff | src/webhook/webhook.service.ts:65-115 | A delivered, failed, acknowledged or deleted pair is never attempted again in any continuation of a run iff no publication or sweep holds it. |
| SplitDelivery.AcknowledgementHoldsIff | src/webhook/webhook.service.ts:65-115 | An acknowledgement lasts in every continuation of a run iff no publication or sweep holds the pair. |
| SplitDelivery.HeldComesUp | src/webhook/webhook.service.ts:92-115 | Whatever a publication or sweep holds is attempted once it is given its turns, and nothing else under way moves. |
| SplitDelivery.AcknowledgementIsUndone | src/webhook/webhook.service.ts:213-222 | A run from the start that turns an acknowledged record into a delivered one. |
| SplitDelivery.OrphanIff | src/subscriptions/subscription.service.ts:133-141 | In every interleaved run a record lacks its subscription iff some step wrote it after the subscription was deleted. |
| SplitDelivery.DeletionHoldsIff | src/subscriptions/subscription.service.ts:133-141 | After a deletion in any interleaved run, no continuation holds a record of a pair of that subscription iff no publication or sweep holds the pair. |
| SplitDelivery.OrphanMakesSweepsThrow | src/webhook/webhook.service.ts:105-111 | A run from the start whose record outlives its subscription, so that every sweep that finds it due throws. |
| SplitDelivery.SeparateRunsAreBounded | src/subscriptions/subscription.service.ts:263-305 | In every interleaved run in which no sweep starts over a pair still held, each pair is attempted at most 6 times with the full backoff in between. |
| SplitDelivery.OverlapBreaksIff | src/webhook/webhook.service.ts:92-115 | After such a run, once a sweep starts, all orders of the turns still due keep the distance between attempts iff the sweep came to no pair still held. |
| SplitDelivery.SevenAttempts | src/subscriptions/subscription.service.ts:292-301 | A run from the start in which a pair fails with its sixth attempt and is delivered with a seventh. |
| SplitDelivery.PublishAloneIsAtomic | src/webhook/webhook.service.ts:65-81 | After any interleaved run, a publication given all its turns first leads to the state of the atomic one and returns the same deliveries. |
| SplitDelivery.SweepAloneIsAtomic | src/webhook/webhook.service.ts:92-115 | After any interleaved run, a sweep given all its turns first leads to the state of the atomic one, returns the same deliveries and throws exactly when that one throws. |
| AuditChain.SortExact | src/audit-log/integrity/log-integrity.verifier.ts:14-14 | The sorted list is in the order of time and keeps the order of entries of one moment. |
| AuditChain.VerifyLogs | src/audit-log/integrity/log-integrity.verifier.ts:10-26 | The array is sorted in place and the reported ids are those whose checksum the chain does not give. |
| AuditChain.LastChecksumDetermines | src/audit-log/integrity/log-integrity.verifier.ts:5-26 | Two logs that verify and end in the same checksum have equal length and equal digested text at every position, unless two of the texts digested collide. |
| AuditChain.TamperedEntryReported | src/audit-log/integrity/log-integrity.verifier.ts:10-26 | Changing what one entry says reports exactly that entry iff its digested text changes, unless two of the texts digested collide. |
| AuditChain.DroppedEntryReported | src/audit-log/integrity/log-integrity.verifier.ts:14-21 | Taking an entry out of a list that verifies when sorted reports exactly the entry after it in the order of time, and nothing if it was the last, unless two of the texts digested collide. |
| AuditChain.SilentChange | src/audit-log/integrity/log-integrity.verifier.ts:6-6 | A character that moves from the user id to the event type, and changes of address or agent, are never reported, whatever the digest. |
| AuditAnswers.EditSeen | src/audit-log/integrity/log-integrity.verifier.ts:6-6 | Of all edits of a single field, exactly those of the address and of the user agent leave the digested text as it was. |
| AuditAnswers.EditReported | src/audit-log/integrity/log-integrity.verifier.ts:10-26 | An edit of one field of one entry, not of its time, reports exactly that entry, unless it is of the address or the user agent or two of the texts digested collide. |
| AuditChain.SealedVerifies | src/audit-log/integrity/log-integrity.verifier.ts:5-26 | Entries given their checksums one after the other in the order of time verify. |
| AuditChain.DigestExists | src/audit-log/integrity/log-integrity.verifier.ts:5-26 | For any entries in the order of time and any change or removal of one of them there is a digest without a collision among the texts digested, under which the sealed entries verify. |
| Staking.PortfolioService.StakeMulti | src/staking/portfolio.service.ts:34-55 | A valid request appends its positions and drops the cached views; an invalid one changes nothing. |
| Staking.PortfolioService.WithdrawMulti | src/staking/portfolio.service.ts:57-89 | Each asset in turn is taken from the first position that holds enough if that is unlocked; emptied positions go. |
| Staking.PortfolioService.GetPortfolioView | src/staking/portfolio.service.ts:91-116 | The cached view is returned while fresh, otherwise a new one is computed and cached. |
| Staking.PortfolioService.GetAggregatedYield | src/staking/portfolio.service.ts:126-143 | The cached yield is returned while fresh, otherwise a new one is computed and cached. |
| StakingAnswers.StakedExact | src/staking/portfolio.service.ts:34-55 | A request is accepted iff it names a staker and at least one asset, all known with positive amounts and terms; each asset adds a position with the rate of the asset, the yield to eight places, and the end of its term in milliseconds. |
| StakingAnswers.WithdrawnExact | src/staking/portfolio.service.ts:66-85 | A withdrawal is paid iff the first position that holds enough is past its end, and is taken out of that position alone, which goes when it is empty. |
| StakingAnswers.ViewedExact | src/staking/portfolio.service.ts:91-116 | After any run a view shows the positions held, the sums of their stakes and yields, and per asset its part of the total and the equal share, both in per cent to two places. |
| StakingAnswers.YieldExact | src/staking/portfolio.service.ts:126-143 | After any run the yield read is the sum of the yields of the positions held, listed in their order. |
| Staking.WithdrawConserves | src/staking/portfolio.service.ts:66-85 | Per asset, staked before = staked after + reported as unlocked; positions stay positive, and locked ones are untouched in their order. |
| Staking.RunBalances | src/staking/portfolio.service.ts:34-89 | After any run a staker holds of each asset what was staked less what was reported as paid out. |
| Staking.ReadsAreCurrent | src/staking/portfolio.service.ts:91-143 | After any run, reading a view or a yield at any time gives what computing it afresh gives. |
| Staking.AllocationsAddUp | src/staking/portfolio.service.ts:177-188 | The allocation names each asset once and its amounts add up to the total value. |
| Staking.SharesInRange | src/staking/portfolio.service.ts:184-188 | Each share lies between 0 and 100, rounding included, and all targets are equal. |
| Staking.RefusedThoughPayableIff | src/staking/portfolio.service.ts:67-77 | A withdrawal that an unlocked position could pay is refused iff a locked position that holds enough comes before all of those. |
| Staking.ShorterTermIsRefused | src/staking/portfolio.service.ts:67-77 | A run of one stake request, the longer term first, after which the shorter term could be paid and is refused. |
| Drift.DriftCalculatorService.CalculateDrift | src/rebalancing/drift-calculator.service.ts:62-124 | The snapshot is computed, added to the history and turned into alerts. |
| Drift.DriftCalculatorService.PersistSnapshot | src/rebalancing/drift-calculator.service.ts:268-283 | The entry is appended and the last 1000 are kept. |
| Drift.DriftCalculatorService.GenerateAlerts | src/rebalancing/drift-calculator.service.ts:285-323 | Each asset in breach gets an alert unless one like it is open. |
| Drift.DriftCalculatorService.AcknowledgeAlert | src/rebalancing/drift-calculator.service.ts:177-188 | An alert that exists becomes acknowledged. |
| DriftAnswers.SnapshotExact | src/rebalancing/drift-calculator.service.ts:62-118 | The snapshot tells each asset's distance from its target, in parts of the target and in value, to four places and judged before rounding, 5 and 10 per cent being the defaults; the overall drift is the mean of the distances shown, to four places, and the largest of them judges the portfolio. |
| DriftAnswers.HistoryExact | src/rebalancing/drift-calculator.service.ts:268-283 | A calculation adds one entry at the end that repeats the snapshot and counts the assets in breach, keeps the last 1000, and touches no other portfolio. |
| DriftAnswers.AlertsExact | src/rebalancing/drift-calculator.service.ts:285-323 | A calculation leaves the existing alerts alone, and each new one tells of an asset in breach for which no alert of its severity was open, with the threshold of that severity. |
| Drift.AlertsAreUnique | src/rebalancing/drift-calculator.service.ts:285-323 | In every run there is at most one unacknowledged alert per portfolio, asset and severity. |
| Drift.BreachesAreAlerted | src/rebalancing/drift-calculator.service.ts:285-323 | After a calculation every asset in breach has exactly one open alert of its severity, if alert ids are fresh. |
| Drift.AlertReachesThreshold | src/rebalancing/drift-calculator.service.ts:294-317 | An alert names the threshold of its severity, and the drift it shows reaches it unless that threshold was rounded down. |
| Drift.HistoryIsLast | src/rebalancing/drift-calculator.service.ts:268-283 | In every run the history is the last 1000 of all snapshots, in order. |
| Drift.OverallBelowMax | src/rebalancing/drift-calculator.service.ts:95-113 | Rounding included, the overall drift never exceeds the largest drift. |
| Drift.MultiplesAreSafe | src/rebalancing/drift-calculator.service.ts:88-88 | A drift that reaches a threshold that is a multiple of 0.0001 still reaches it after rounding. |
| Drift.StatusCoversIff | src/rebalancing/drift-calculator.service.ts:77-107 | The portfolio is judged at least as severely as every asset, for all assets, iff no threshold that counts is rounded down. |

## Left out

- NestJS modules, controllers, guards, interceptors and HTTP headers; TypeORM, Bull, Winston and Sentry.
- Floating-point error: tokens, amounts, weights and drifts are exact; JSON numbers are exact decimals, without -0 and without rounding to doubles.
- The clock is read once per request, cache operation and turn of a publication or sweep (once per sweep and publication where these are atomic); `wrap` reads it twice.
- Policies are taken to be valid (positive limit and window), as `src/rate-limit/rate-limit.config.ts` loads them; upper-casing of the HTTP method is not modelled.
- The Redis client of `src/cache/backends/redis-cache.ts` beyond its contract: paging, glob characters in prefixes, serialisation of values and outages in the middle of a run.
- The cache's own metric counters, `warmup` and the statistics; only hits, misses, sets and invalidations are counted.
- Arguments of cached methods that are invalid dates, bigints, functions or cyclic, and the explicit key of the decorator.
- ZodToOpenApi.ZodToOpenApiSchema: descriptions are not modelled, as they have no bearing on what a schema accepts; neither is the missing schema, nor properties that objects inherit.
- ZodTheorems.CompiledAccepts: leaves out preprocessing and coercion, rewriting checks such as trim, regular expressions with flags, the fallback kinds and the losing constructs listed above; a text that passes a format of Zod is assumed to have the format of that name, and `ZodAcceptsCompiled` admits a format check only where the converse holds too.
- ZodTheorems.PropertyKeptIff: is stated for objects with one property, as other properties can make an object schema accept nothing.
- PaginationTheorems.NoRowTwice: assumes that sort values never change, that ids are unique and that no value is null; the database's comparison is any strict total order on each column.
- Conditions that a query builder already holds before the cursor is applied: the one caller has none.
- Offset pagination, which is plain arithmetic.
- Subscriptions and delivery records are values in the service's maps; no reference to an entity outlives the call that changes it. Names, delivery modes, batch intervals, creation times and signatures are not modelled.
- `getDeliveryStatus` and the dashboard, which only count.
- SHA-256 itself is not modelled: the chain's digest is any function to 64 hexadecimal digits, and what is detected is stated up to a collision among the finitely many texts digested. An entry without a valid date makes the verifier throw.
- `analysePortfolio`, drift webhooks and alert messages, which compute from the modelled state and change nothing in it.
- `AlertingService` in `src/monitoring/alerting.service.ts`, which has no strong invariant.
