# Verified models of the search server's core

A Dafny model of the parts of the search server whose correctness rests on state, order
and arithmetic, with proofs of what they promise:

- the **resilience stack** around a provider (`Breaker`, `BreakerProtocol`, `Retry`,
  `SearchCache`, `Resilience`): the circuit breaker as a protocol between concurrent
  callers, the retry loop with its 64-bit backoff, the TTL cache with copy-in and
  copy-out, and the three of them stacked;
- the **search pipeline** (`Fusion`, `Selection`, `FallbackChain`, `Service`,
  `Consensus`, `Transparency`): reciprocal rank fusion, greedy selection, the fallback
  chain, the fan-out, and what holds across them;
- the reader's **page cache** (`PageStore`, `PageCache`, `DiskCache`): shared mutable
  entries under two memory budgets with a directory of hash-named files behind them;
- two **text scanners** (`JsonGrammar`, `JsonScanner`, `Paginate`): cutting a JSON object
  out of a page, held against the grammar of RFC 8259, and printing the lines around the
  matches of a query;
- the **Stack Exchange cooldown** (`StackExchange`): a one-slot gate and a field written
  only under it.

Code that changes things in place is modelled as classes, methods and loops. Each method
is proved against a function or predicate that says what it computes, and the properties
are proved about those, mostly over all runs. `Text` and `Sorting` hold the few library
operations the code relies on; `SearchTypes`, `Wrappers` and `Numbers` hold what the
others share.

`dafny verify dfyconfig.toml` checks the project.

How time, concurrency and libraries appear:

- Times and durations are integers in nanoseconds. Every clock reading is a parameter of
  the operation that makes it, so that two readings in one operation may differ.
- Critical sections are atomic steps; callers interleave freely between them.
- URL parsing and normalization, IDNA mapping, lower-casing, and the hash that names
  cache files are function parameters about which nothing is assumed.
- The state of a caller's context is observed wherever the source observes it, and may be
  anything at each observation.

Where the code does less than one would expect of it, the code is modelled and the exact
condition proved. Storing a response under a key that is cached already still counts as
needing room, so a full search cache may be reset by overwriting an entry
(`OverwritingForgets`). An unexpired response is found again if and only if no store since
has found the cache full of unexpired entries (`FreshIsFoundUnlessReset`). Likewise, with
persistence on, the page cache may serve an older page than the latest accepted: when the
write of the latest one fails, memory is emptied, and the older one is loaded from disk
again (`FailedWriteReverts`, and on the cache itself `OlderPageComesBack`). What is in
memory is the latest page if and only if it was not loaded while the latest had not reached
the open directory (`LatestUnlessReverted`); other URLs with the same file make no
difference, and a directory opened anew counts as holding the latest page if it still does.

## Model

| member | source | states |
|---|---|---|
| Breaker.Clamp | internal/resilience/breaker.go:61-67 | sensible options are kept; a threshold below 1 becomes 1, a cooldown that is not positive thirty seconds |
| Breaker.CircuitBreaker.constructor | internal/resilience/breaker.go:61-78 | a new breaker is closed, with the clamped options |
| Breaker.CircuitBreaker.BeforeCall | internal/resilience/breaker.go:102-127 | changes the breaker's fields, and admits or refuses, exactly as the protocol's admission step does |
| Breaker.CircuitBreaker.AfterCall | internal/resilience/breaker.go:130-179 | changes the fields exactly as the protocol's completion step does, for stale, cancelled, successful and failed calls |
| BreakerProtocol.StepKeepsInv | internal/resilience/breaker.go:84-179 | every step of any caller keeps the invariant that ties generations in flight, the trial slot and the failure count to the state |
| BreakerProtocol.RunKeepsInv | internal/resilience/breaker.go:84-179 | in every interleaving no call carries a future generation, the slot is busy exactly while its one trial runs, a busy slot means half-open, an open breaker has no current call in flight, and the failure count is below the threshold exactly when closed |
| BreakerProtocol.AtMostOneTrial | internal/resilience/breaker.go:117-122 | never more than one trial in flight, stale and cancelled ones included |
| BreakerProtocol.WhoGetsIn | internal/resilience/breaker.go:102-127 | in every interleaving a caller gets in if and only if no failure streak of the threshold is standing, or its last failure is a cooldown old and no trial is in flight; it gets in as a trial exactly if a streak is standing, and a caller that is refused changes nothing |
| BreakerProtocol.CancelledTrialIsReplaced | internal/resilience/breaker.go:134-144 | right after a trial was cancelled the next caller gets in |
| BreakerProtocol.GenerationCountsModeChanges | internal/resilience/breaker.go:130-133 | after any run the generation is the number of mode changes so far, so a report is stale exactly if the mode has changed since its call was admitted |
| BreakerProtocol.StateIsTrailingFailures | internal/resilience/breaker.go:129-179 | after any run the state is that of a sequential automaton fed only the current, uncancelled outcomes: closed exactly while fewer than the threshold of the latest ones failed in a row, the counter being that number, opened by the latest, reporting the latest error |
| BreakerProtocol.AdmissionWaitsOutCooldown | internal/resilience/breaker.go:106-123 | whoever gets past a tripped breaker does so at least one cooldown after the failure that tripped it, also in place of a cancelled trial |
| BreakerProtocol.NoiseIsIrrelevant | internal/resilience/breaker.go:134-144 | erasing all stale reports, and the cancelled ones while closed, leaves a legal run with the same final state |
| BreakerProtocol.WithoutNoiseIsPart | internal/resilience/breaker.go:134-144 | and nothing but events of the run |
| BreakerProtocol.HalfOpenPeriodsAreSpaced | internal/resilience/breaker.go:106-116 | k half-open periods have taken at least k cooldowns, however callers interleave |
| BreakerProtocol.TrialsAreAccountedFor | internal/resilience/breaker.go:117-148 | over a run, trials admitted plus a free slot equal half-open periods plus cancelled trials: no cancelled trial loses the slot, none is replaced twice |
| Retry.Clamp | internal/resilience/retry.go:46-52 | sensible options are kept; fewer than one attempt become one, a delay that is not positive 200 milliseconds |
| Retry.Backoff | internal/resilience/retry.go:128-137 | in wrapping 64-bit arithmetic the loop stops at the largest number of doublings, up to the attempt, whose result still fits |
| Retry.LastSafeDoublingIsLargest | internal/resilience/retry.go:131-135 | a doubling count up to the attempt fits exactly when it does not exceed the one the loop finds, so one overflow test catches all |
| Retry.FullJitter | internal/resilience/retry.go:145-151 | the delay lies in [d/2, d], the random source is asked for a positive number that fits, and nothing wraps |
| Retry.JitterCoversItsRange | internal/resilience/retry.go:149-150 | the delays that some random source brings about are exactly those in [d/2, d] |
| Retry.Search | internal/resilience/retry.go:66-108 | the provider is called once per attempt until the first that succeeds, is not retryable, is the last, or is cut short; the caller gets that attempt's own answer, and the context's error only if the provider was never called; each wait is the capped advice or jittered backoff |
| Retry.WhichCallsAreMade | internal/resilience/retry.go:66-125 | call i is made if and only if there are attempts left, the context has not ended, and every attempt before failed, was not cancelled, timed out or blocked, and had its wait run to the end |
| Retry.DelayMeans | internal/resilience/retry.go:91-98 | advice of up to thirty seconds is followed to the letter, more is cut to thirty seconds, and without advice the wait is at least half the base delay |
| Retry.LastAttemptIsFirstStop | internal/resilience/retry.go:68-106 | the attempt the loop stops at is determined by what the loop meets |
| SearchCache.Clamp | internal/resilience/cache.go:48-51 | a positive size bound is kept, any other becomes 1024; the TTL is as configured |
| SearchCache.BoundHolds | internal/resilience/cache.go:110-126 | the cache never exceeds its size bound, in every run |
| SearchCache.EntriesAreLatestStores | internal/resilience/cache.go:94-126 | in every run each entry is the latest store under its key, good for one TTL from then |
| SearchCache.HitIsLatestAndFresh | internal/resilience/cache.go:94-107 | a hit is the latest response stored under the same key, strictly less than a TTL ago |
| SearchCache.FreshIsFoundUnlessReset | internal/resilience/cache.go:94-126 | conversely, a response whose TTL has not passed is found if and only if no store since the last one under its key has found the cache full of unexpired entries |
| SearchCache.SweepLeavesWhatIsFound | internal/resilience/cache.go:129-136 | a sweep leaves exactly the entries that lookups at that time would find |
| SearchCache.LookupRemovesExpired | internal/resilience/cache.go:94-107 | a lookup removes an entry exactly if it finds it expired, and leaves all others |
| SearchCache.RoomIsMadeWhenFull | internal/resilience/cache.go:114-121 | an entry survives a store under another key if and only if the cache was not full, or the entry has not expired and the unexpired ones did not fill it |
| SearchCache.OverwritingForgets | internal/resilience/cache.go:114-121 | a concrete run: two responses fit, and storing the second again loses the first |
| SearchCache.HitsAreTransparent | internal/resilience/cache.go:146-156 | where only requests without local filters come through, a hit is what the inner provider would have answered, in every interleaving |
| SearchCache.FiltersMustBeStripped | internal/search/service.go:295-298 | without stripping the filters that fails: a concrete pair of requests shares a key and gets the wrong answer |
| SearchCache.CloneResponse | internal/resilience/cache.go:140-144 | an equal response in fresh slices |
| SearchCache.CachingProvider.constructor | internal/resilience/cache.go:48-60 | an empty cache with the clamped options |
| SearchCache.CachingProvider.Get | internal/resilience/cache.go:94-107 | the lookup with lazy expiry; a hit is a private copy |
| SearchCache.CachingProvider.EvictExpired | internal/resilience/cache.go:129-136 | removes exactly what has expired |
| SearchCache.CachingProvider.MakeRoom | internal/resilience/cache.go:114-121 | a full cache is swept, and reset if that does not help |
| SearchCache.CachingProvider.Set | internal/resilience/cache.go:110-126 | stores a private copy under the key for one TTL, after making room |
| SearchCache.CachingProvider.Search | internal/resilience/cache.go:67-91 | the inner provider is asked exactly when caching is off or the lookup misses, and only its successes are stored |
| SearchCache.ChangesElsewhere | internal/resilience/cache.go:138-144 | no change outside the cache and the slices it owns changes what it holds |
| SearchCache.HitsArePrivate | internal/resilience/cache.go:138-144 | whatever the provider that produced a response and a caller that was handed it leave in their slices, later callers get the response as it was stored |
| Resilience.SettingsOf | internal/resilience/resilience.go:51-64 | whatever the configuration, the stacked decorators run with usable settings, and with the configured ones where those are sensible |
| Resilience.Stack.constructor | internal/resilience/resilience.go:51-64 | the wrapped stack starts empty and closed, with the clamped settings |
| Resilience.Stack.AskBreaker | internal/resilience/breaker.go:84-99 | breaker and retry loop composed: admission, the loop's answer and calls, completion under the admitted generation |
| Resilience.Stack.Search | internal/resilience/resilience.go:41-64 | one search through cache(breaker(retry(inner))) changes cache and breaker, answers, and calls the provider as the composed step says: hits skip breaker and retry, errors are never cached |
| Resilience.AnswerHasSource | internal/resilience/resilience.go:41-64 | the answer is the cached response, without a call and without a trace; or what the last call to the provider came to; or an error without a call. The provider is called exactly if nothing is cached, the breaker's state lets a call through, and no context has ended |
| Resilience.SuccessIsServedAgain | internal/resilience/cache.go:67-126 | over runs of searches: after a search that the provider answered, a later one with an equal key gets the same response without a call and changes nothing, until the TTL has passed and unless a store between found the cache full of unexpired responses |
| Resilience.FailureKeepsResponses | internal/resilience/cache.go:84-91 | a search without success leaves every cached response as it was |
| Resilience.BreakerLearns | internal/resilience/breaker.go:84-99 | what a search teaches a quiet breaker: nothing if it did not get to the provider; a success closes it with the counter at zero; a failure counts one more with its message kept, or opens it from the end of the search on |
| Resilience.BreakerIgnoresCancelled | internal/resilience/breaker.go:134-144 | a caller who gives up teaches it nothing: a closed breaker is unchanged, a half-open one has its slot free again |
| Resilience.VisitWhileDown | internal/resilience/resilience.go:51-64 | one search against a failing provider costs at most the attempts of one retry loop, and only if the breaker lets it through; a tripped breaker takes a cooldown for each |
| Resilience.QuietAfterAnyRun | internal/resilience/breaker.go:84-179 | after any run of any callers with none in flight the breaker is in a state the next row starts from |
| Resilience.OutageLoad | internal/resilience/resilience.go:51-64 | while the provider fails, sequential uncancelled callers make at most MaxAttempts * (Threshold + whole cooldowns passed) calls to it, whatever their number, whatever the cache holds, and whatever happened to the breaker before |
| Resilience.OutageLoadIsReached | internal/resilience/resilience.go:51-64 | the bound is exact: for every configuration and number of cooldowns some outage meets it |
| Fusion.FuseResults | internal/search/merge.go:83-162 | the one-pass loop over running totals returns the declarative fusion: scores summed over the providers' rankings, metadata merged in order, ranked and cut |
| Fusion.Absorb | internal/search/merge.go:115-145 | one row keeps the map and the order list equal to what the rows so far amount to, with one vote per provider and document |
| Fusion.OrderIsRanked | internal/search/merge.go:148-150 | every document with a usable row is listed exactly once, by nonincreasing score, ties in order of first occurrence |
| Fusion.FusedHitsAreKeyed | internal/search/merge.go:95-119 | each fused hit has a valid URL of the document at its place, trimmed and non-empty, and a folded description |
| Fusion.MergedUrlIsFirst | internal/search/merge.go:120-124 | the first occurrence supplies the displayed URL |
| Fusion.MergedTitleIsFirstName | internal/search/merge.go:126-128 | the title is that of the first row whose title is not its own URL, nor the document's; the document's URL if there is none |
| Fusion.MergedDescriptionIsLongest | internal/search/merge.go:129-131 | the description is the first of the longest ones that the rows give |
| Fusion.MergedPublishedIsFirst | internal/search/merge.go:132-134 | the date is the first that any row gives, and missing only if none gives one |
| Fusion.SourcesAreContributed | internal/search/merge.go:142-144 | the sources shown are those that some provider's first row of the document names, each once |
| Fusion.CountCuts | internal/search/merge.go:153-156 | a positive count keeps the first that many documents of the uncut list, any other count all |
| Fusion.CleanFillsGaps | internal/search/merge.go:95-119 | exactly hits with a blank or unacceptable URL are dropped; the others keep title, words of the description, source and date, but for a blank title, which becomes the URL, and a missing source, which becomes the provider |
| Fusion.SingleBallotOrder | internal/search/merge.go:136-150 | fusing one provider's rows keeps their order |
| Fusion.FusedIsSettled | internal/search/service.go:303 | fusing one response leaves distinct documents that cleaning would not change |
| Fusion.RefusingIsIdentity | internal/search/merge.go:83-162 | fusing that output again under the same provider returns it unchanged |
| Sorting.SortIsRanked | internal/search/merge.go:148-150 | sorting orders by score and leaves what ties in its old order |
| Sorting.RankedIsUnique | internal/search/merge.go:148-150 | there is only one such arrangement, so any stable sort gives it |
| Text.TrimSpaceIdempotent | internal/search/merge.go:96-97 | trimming twice is trimming once |
| Text.CollapseIdempotent | internal/search/merge.go:119 | folding white space twice is folding it once |
| Text.TrimSpaceRemovesBlankEnds | internal/search/merge.go:96-97 | trimming takes white space off both ends, nothing else, and leaves none there |
| Text.CollapseFolds | internal/search/merge.go:119 | folding leaves the words of a text, with single spaces between and none at the ends |
| Selection.CandidateCountBounds | internal/search/selection.go:15-24 | between ten and fifty candidates, and never fewer than the results asked for |
| Selection.CandidatesAreNeeded | internal/search/selection.go:15-24 | and no more than needed: as many as results, or three times as many with filters or a host cap, but between ten and fifty |
| Selection.SelectResults | internal/search/selection.go:62-94 | what is selected is in order, under no excluded domain, under an included one if there are any, never above the cap per host or the count; and whatever the filters admit and is not selected came after the last there was room for, or when its host was full |
| Selection.SelectIsFair | internal/search/selection.go:62-94 | the same of the function the later theorems speak of: it is the fair selection |
| Selection.PassesMeans | internal/search/selection.go:50-57 | the filters pass a hit exactly if it has a host that equals or lies below an included domain, if there are any, and no excluded one; it counts for that host without one leading www. |
| Selection.EligiblePerHost | internal/search/selection.go:84-87 | per host, the hits kept are all that pass, up to the cap |
| Selection.GreedyIsOptimal | internal/search/selection.go:62-94 | the result respects order, filters, cap and count, and nothing that does is longer |
| Selection.SelectLength | internal/search/selection.go:62-94 | its length is the sum over hosts of the passing hits, each capped, cut to the count |
| Selection.UncappedIsFilter | internal/search/selection.go:77-84 | without a cap exactly the hits that pass are eligible |
| FallbackChain.ChainStopsAtFirstServing | internal/search/service.go:194-253 | without cancellation the chain stops at the first provider with a non-empty selection |
| FallbackChain.ServedWithFailuresBefore | internal/search/service.go:217-236 | the caller then gets that provider's non-empty results, and a list of failures that is exactly those before it, in order, followed by those its own answer reports |
| FallbackChain.ExhaustedChain | internal/search/service.go:254-261 | if nobody serves, the caller gets the last empty answer when all answered; otherwise an error that joins exactly the failures |
| FallbackChain.CancelledChain | internal/search/service.go:194-246 | nobody is asked once the context has ended, no failure is followed by another attempt if it has ended by then, and the caller gets the context's error |
| Service.SearchOne | internal/search/service.go:293-304 | one provider is asked without the local filters for a pool of candidates, and its answer is relabelled, deduplicated and cut |
| Service.SearchOneIsSettled | internal/search/service.go:299-304 | its list leaves under its own name, settled, with at most fifty entries |
| Service.SearchOneKeepsOrder | internal/search/service.go:299-304 | the list has the distinct documents of the provider's answer in that order, as many as the pool takes, and the failures the answer reports |
| Service.SecondFusionUsesTheseRanks | internal/search/merge.go:75 | the fan-out's fusion scores each document by the rank it got there |
| Service.ProviderNames | internal/search/service.go:106-113 | all configured names, once each, sorted |
| Service.BelowIsLexicographic | internal/search/service.go:111 | the order of the names: a proper prefix first, otherwise by the first character that differs |
| Service.AttemptOrder | internal/search/service.go:183-188 | the requested provider first, the others sorted, everybody exactly once |
| Service.SearchAll | internal/search/merge.go:28-77 | the error of an ended context; an error with exactly the failures, by name, if and only if everybody failed; otherwise a fair selection from the fused answers, at most the count, admitted and within the cap, with exactly the failures beside it |
| Service.FanOutMeans | internal/search/merge.go:28-77 | the same of the function the later theorems speak of |
| Service.AttemptOne | internal/search/service.go:201-232 | one attempt of the chain: the provider's own failure, or a fair selection from its own settled answer under its own name |
| Service.AttemptMeans | internal/search/service.go:201-232 | the same of the function the chain is described by |
| Service.Fallback | internal/search/service.go:190-262 | the loop stops where the chain does and returns what the chain returns |
| Service.PrepareDecides | internal/search/service.go:136-173 | exactly which requests are accepted, and that what goes on is a trimmed query to a known provider for one to fifty results, with the normalized domain lists and everything else as asked |
| Service.Search | internal/search/service.go:132-262 | a whole search: invalid requests are refused, a fan-out without a named provider, otherwise the fallback chain |
| Consensus.ScoreBounds | internal/search/merge.go:136-141 | a document named by v providers scores between v/110 and v/61 |
| Consensus.AgreedScoresHigher | internal/search/merge.go:21-23 | a document two providers name scores strictly above any that one names |
| Consensus.AgreedComesFirst | internal/search/merge.go:75 | in a fan-out it is listed before it |
| Consensus.AgreementSurvivesTheCut | internal/search/merge.go:75 | without a host cap, no count and no filter keeps a document of one provider while it cuts an admitted one that several name |
| Consensus.AgreementShows | internal/search/merge.go:28-77 | the same of what a fan-out returns: if one of its results is a document of one provider, every admitted document that several name is among the results before it |
| Transparency.CachedAnswersAlike | internal/search/service.go:293-299 | after any history of searches, a cached provider answers the service's requests as the provider itself does |
| Transparency.StripLiftsFilters | internal/search/service.go:293-298 | a provider is asked what the caller asked, but for the number of candidates and without the local filters |
| Transparency.FanOutIsTransparent | internal/search/merge.go:28-77 | the fan-out returns the same with and without caches |
| Transparency.ChainIsTransparent | internal/search/service.go:190-262 | so does the fallback chain, stopping at the same attempt |
| Transparency.SearchIsTransparent | internal/search/service.go:132-262 | a whole search behind the caches may give exactly the answers it may give without them |
| PageStore.InsertionFits | internal/reader/cache.go:127-143 | after making room, one insertion keeps both memory budgets, whatever the cache held before |
| PageStore.ResetOnlyIfNeeded | internal/reader/cache.go:129-143 | memory is reset exactly if the page would break a budget beside the unexpired others |
| PageStore.WrittenIsFound | internal/reader/diskcache.go:53-94 | what was written is read back whole, under the URL it was written for and no other, whoever shares the file |
| PageStore.LatestUnlessReverted | internal/reader/diskcache.go:53-117 | what was last put into memory for a URL is the latest page stored or revalidated for it if and only if it was not loaded from disk while the latest had not reached the open directory, under any file hash |
| PageStore.OwnFile | internal/reader/diskcache.go:57-64 | a file that names the URL holds its latest page if and only if that reached the open directory |
| PageStore.FailedWriteReverts | internal/reader/diskcache.go:95-111 | whatever two pages are stored one after the other: a failed write of the second, memory emptied, and a load bring the first back |
| PageStore.WrittenIsLatest | internal/reader/diskcache.go:78-117 | in particular memory has the latest page while that page's write succeeded and no directory was opened since, however often memory was reset and refilled, and so has its file if that still names the URL |
| PageStore.StaysUnlessDropped | internal/reader/cache.go:129-143 | a page whose expiry has not passed is in memory, with that expiry, if and only if nothing was reset, emptied or marked stale since it was put there |
| PageStore.ServedUnlessDropped | internal/reader/cache.go:65-76 | exactly then a lookup serves it; otherwise nothing is served, unless its file has a page and memory no stale entry in front of it |
| PageStore.LatestIsServedUnlessDropped | internal/reader/cache.go:65-76 | without persistence: the latest page is served until it expires if and only if it was not dropped |
| PageStore.LookupIsGood | internal/reader/cache.go:54-62 | a lookup, from disk too, keeps budgets and history in step, and finds what was last put into memory for that very URL, with the expiry it got then, under any file hash |
| PageStore.PersistedIsAttested | internal/reader/diskcache.go:78-117 | writing a page, or failing to, leaves every file holding what was last written to it, and the directory within its cap |
| PageStore.StoreIsGood | internal/reader/cache.go:110-125 | storing keeps everything that holds of the cache: budgets, and every page in memory and on disk being what was last put there with its expiry |
| PageStore.RenewIsGood | internal/reader/cache.go:94-107 | revalidating keeps everything that holds of the cache |
| PageStore.RefreshedIsRenewed | internal/reader/cache.go:94-107 | what a revalidation amounts to: if memory or the file has a page, just that page comes back, good for one TTL from then, and is the latest accepted for its URL; otherwise nothing changes |
| PageStore.ExpiredIsGood | internal/reader/cache.go:146-152 | so does marking everything stale |
| PageStore.SwitchedIsGood | internal/reader/diskcache.go:30-42 | so does switching persistence off, or on over a directory as it is found |
| PageStore.BudgetsHold | internal/reader/cache.go:12-17 | read off the invariant that every method of the cache keeps: at all times at most 256 entries and 32 MiB in memory, and at most 512 page files |
| PageCache.PageCache.constructor | internal/reader/cache.go:37-40 | an empty cache without persistence |
| PageCache.PageCache.DropExpired | internal/reader/cache.go:131-139 | removes exactly the expired entries and adds up the others |
| PageCache.PageCache.MakeRoom | internal/reader/cache.go:129-143 | the others stay if the new content fits beside them, otherwise nothing does |
| PageCache.PageCache.LoadFromDisk | internal/reader/diskcache.go:53-74 | a file is used only if it names this URL and is not too large; then it moves into memory within the budgets |
| PageCache.PageCache.FindEntry | internal/reader/cache.go:54-62 | memory first, then disk; what is found was last put into memory under this URL, and the cache stays valid |
| PageCache.PageCache.Persist | internal/reader/diskcache.go:78-117 | nothing if the write fails, else the new file, pruned when there are too many |
| PageCache.PageCache.GetFresh | internal/reader/cache.go:65-76 | exactly the content of a lookup whose expiry has not passed; that expiry is the one set by the store or revalidation, under the TTL then in force, that last put the page into memory for this URL or into the file it was loaded from; it is the latest one if and only if memory was not reverted; and until that expiry the page is returned if and only if memory has not dropped it, or its file has it |
| PageCache.PageCache.Validators | internal/reader/cache.go:80-90 | the validators of the page, fresh or stale, as they came with the body that was last put into memory for this URL |
| PageCache.PageCache.Refresh | internal/reader/cache.go:94-107 | the page is good for another TTL in memory and on disk, through the shared entry |
| PageCache.PageCache.Store | internal/reader/cache.go:110-125 | the page is in memory and, if written, on disk; oversized content and a disabled cache change nothing |
| PageCache.OlderPageComesBack | internal/reader/cache.go:44-125 | on the cache object: two stores, the second write failing, and a new TTL, and the first page is served, whatever the two are |
| PageCache.RevalidationCycle | internal/reader/cache.go:65-152 | on any cache: a page that is stored and marked stale is not served, but its validators are handed out; once confirmed, it is served until one TTL from then and no longer |
| PageCache.PageCache.ExpireAll | internal/reader/cache.go:146-152 | every entry is stale, nothing else changes, and the history says so |
| PageCache.PageCache.SetTTL | internal/reader/cache.go:44-49 | the TTL changes and memory is emptied, and the history says so |
| PageCache.PageCache.SetDir | internal/reader/diskcache.go:30-42 | persistence is off, or on over the directory found, pruned |
| DiskCache.Sweep | internal/reader/diskcache.go:130-151 | removes exactly the expired page files and collects the others |
| DiskCache.PruneDiskCache | internal/reader/diskcache.go:121-159 | other files stay, no expired page does, as many live pages as the cap allows, none older than one removed |
| DiskCache.PrunedFiles | internal/reader/diskcache.go:121-159 | read off that: afterwards no page is past its expiry and at most 512 are left, and a file goes only if it is a page and expired, or 512 others stay |
| DiskCache.PageCacheFileNames | internal/reader/diskcache.go:162-168 | the cache's own files are those named by 64 hexadecimal digits and .json |
| JsonScanner.ScanObject | internal/reader/youtube.go:230-259 | the scanning loop returns the text up to where the scanner first closes, if it does |
| JsonScanner.ExtractJSONObject | internal/reader/youtube.go:218-260 | the scan starts at the first brace after the first marker; no marker, no result |
| JsonScanner.ValueIsNeutral | internal/reader/youtube.go:230-258 | scanning any well-formed value inside an object leaves the scanner as it was and never closes it |
| JsonScanner.ScanStopsAtObjectEnd | internal/reader/youtube.go:248-254 | the scanner closes exactly at the last brace of a well-formed object, whatever follows |
| JsonScanner.ExtractsWellFormedObject | internal/reader/youtube.go:216-260 | if the first brace after the first marker begins a well-formed object (RFC 8259, sections 2 to 7), exactly its text is returned |
| JsonScanner.InvalidEscapeHidesQuote | internal/reader/youtube.go:244-247 | well-formedness is needed: an invalid escape before a brace keeps the object from being closed |
| Paginate.WindowsCoverContent | internal/reader/paginate.go:93-108 | following the continuation markers reads the rest of the document exactly once, in windows of just the length asked for but for the last |
| Paginate.BeyondTheEnd | internal/reader/paginate.go:93-100 | a start beyond the document is answered with its length, an empty document with one empty window |
| Paginate.FindMatches | internal/reader/paginate.go:121-131 | the first matching lines in order, and whether there are more |
| Paginate.MatchesAre | internal/reader/paginate.go:121-131 | the indices it draws on are those of the lines that match, and no others |
| Paginate.PrintWindows | internal/reader/paginate.go:138-158 | the merging loop prints the layout of the covered lines |
| Paginate.GrepContent | internal/reader/paginate.go:113-163 | what is reported: no match, or the layout around the first matches, and whether it was truncated |
| Paginate.PrintedAreCovered | internal/reader/paginate.go:138-158 | the lines printed are exactly the union of the windows, clipped to the document, increasing, each once |
| Paginate.SeparatorsMarkGaps | internal/reader/paginate.go:151-153 | a separator stands between printed lines that are not neighbours, and nowhere else |
| Text.JoinOfSplit | internal/reader/paginate.go:118 | the lines of a text joined again are the text |
| Text.SplitSeparates | internal/reader/paginate.go:118 | and no line contains a line break |
| StackExchange.StackExchange.Delay | internal/provider/stackexchange/stackexchange.go:79-81 | a request is put off by what is left of the cooldown |
| StackExchange.StackExchange.Decode | internal/provider/stackexchange/stackexchange.go:190-215 | the cooldown rules applied to the field, and the remaining wait reported with a throttle error |
| StackExchange.SecondsAreLongestWait | internal/provider/stackexchange/stackexchange.go:199-207 | a response asks for its own backoff, at least a minute with error 502, past midnight when the quota is used up, and no more than the longest of these |
| StackExchange.StepKeepsInv | internal/provider/stackexchange/stackexchange.go:69-83 | every step keeps the gate's count in line with who is inside and a request under way allowed; the field and the clock never go back |
| StackExchange.OnlyOneInside | internal/provider/stackexchange/stackexchange.go:73-75 | at most one caller is past the gate |
| StackExchange.NeverEarlier | internal/provider/stackexchange/stackexchange.go:208-210 | over a run the earliest next request never moves back |
| StackExchange.CooldownIsKept | internal/provider/stackexchange/stackexchange.go:199-210 | after a response that asks for a cooldown, no later request of any caller goes out before it has passed |
| StackExchange.ThrottleIsKept | internal/provider/stackexchange/stackexchange.go:199-210 | no request goes out within a minute of error 502, nor within the backoff a response names, up to a day |
| StackExchange.RequestsResume | internal/provider/stackexchange/stackexchange.go:79-81 | and cooldowns do not last longer: a caller inside the gate gets through if and only if the last wait that was asked for has passed |
| StackExchange.QuotaIsKeptUntilMidnight | internal/provider/stackexchange/stackexchange.go:203-207 | after the quota is used up, no request goes out before the next midnight, UTC |

## Left out

- Retry.Search: attempts and contexts are given as functions of the attempt; the two test hooks for sleeping and jitter are not modelled.
- Resilience.OutageLoad: concurrent callers are not counted; calls admitted together before the breaker trips are bounded only by their number. Cancelled callers are excluded because a closed breaker learns nothing from them.
- SearchCache.HitsAreTransparent: the key is the tuple of the fields it lists; its JSON text, which identifies some strings that are not valid UTF-8 and tells an absent header map from an empty one, is not.
- Fusion.FuseResults: scores are exact rationals where the source uses binary floating point, so sums of different shares that round to the same number are told apart.
- Service.SearchAll: the parallel searches are made one after the other; they share nothing but the providers. Rate limiters, per-provider timeouts, metrics, logging and tracing are not part of this model.
- Service.Search: error texts are shortened to what distinguishes them.
- Selection.SelectResults: host extraction and IDNA mapping are a parameter; domain normalization is one too.
- DiskCache.PruneDiskCache: the order among files of equal age is the code's choice and left open by the contract; files that cannot be read or removed, subdirectories, and other processes on the directory are not modelled.
- PageCache.PageCache.Store: a file's content is its record; the JSON round trip of strings that are not valid UTF-8 is not modelled. Content too large for the cache leaves the page stored before.
- PageCache.PageCache.GetFresh: a page found in a directory when that is opened, other than the latest page of its URL, is taken to have been stored for the URL and expiry its file names; the store behind it may belong to an earlier process.
- Paginate.GrepContent: line numbers, headings and the final trimming of the output are not modelled; lower-casing is a parameter. Option validation and page ranges are left out as easy.
- JsonScanner.ExtractsWellFormedObject: says nothing about text that is not well-formed, beyond the one example.
- StackExchange.StackExchange.Decode: decoding the questions themselves is left out, as are waits on the gate that a cancelled context ends.
- The breaker's generation is an unbounded number; the source's wraps after 2^64 transitions.
- Panics of inner providers and jumps of the wall clock.
- URL normalization and validity are function parameters, and nothing is claimed about them.
- HTTP, TLS, HTML, XML and PDF handling, provider scrapers, site readers, proof-of-work solving, configuration and the tool layer: input and output, or unseen library code.
- Batch search, retry-header parsing, Markdown clean-up and domain policy lists: they would only add easy members.
