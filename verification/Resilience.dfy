/**
  The decorators stacked around a provider, outermost first: cache, breaker, retry. What
  one search does to the whole stack, and how hard callers can hit a provider that is down.
*/
module Resilience {
  import opened Wrappers
  import opened Numbers
  import opened SearchTypes
  import SearchCache
  import Breaker
  import Protocol = BreakerProtocol
  import Retry

  datatype Config = Config(
    retryMaxAttempts: int,
    retryBaseDelay: int,
    breakerThreshold: int,
    breakerCooldown: int,
    cacheTTL: int)

  datatype Settings = Settings(cache: SearchCache.Options, breaker: Breaker.Options, retry: Retry.Options)

  /** What the three constructors make of the configuration. */
  function SettingsOf(cfg: Config): (o: Settings)
    ensures o.cache.maxEntries == 1024 && o.cache.ttl == cfg.cacheTTL
    ensures o.breaker.threshold >= 1 && o.breaker.cooldown > 0
    ensures o.retry.maxAttempts >= 1 && o.retry.baseDelay > 0
    ensures cfg.breakerThreshold >= 1 ==> o.breaker.threshold == cfg.breakerThreshold
    ensures cfg.breakerCooldown > 0 ==> o.breaker.cooldown == cfg.breakerCooldown
    ensures cfg.retryMaxAttempts >= 1 ==> o.retry.maxAttempts == cfg.retryMaxAttempts
    ensures cfg.retryBaseDelay > 0 ==> o.retry.baseDelay == cfg.retryBaseDelay
  {
    Settings(
      SearchCache.Clamp(SearchCache.Options(cfg.cacheTTL, 0)),
      Breaker.Clamp(Breaker.Options(cfg.breakerThreshold, cfg.breakerCooldown)),
      Retry.Clamp(Retry.Options(cfg.retryMaxAttempts, cfg.retryBaseDelay)))
  }

  ghost predicate Sane(o: Settings) {
    && o.breaker.threshold >= 1 && o.breaker.cooldown > 0
    && o.retry.maxAttempts >= 1 && 0 < o.retry.baseDelay < Retry.TWO_63
  }

  /** Why a search fails: its context has ended, the breaker is open, or the provider failed. */
  datatype Refusal = Ended(value: Retry.Failure) | CircuitOpen | Failed(value: Retry.Failure)

  /**
    One search through the stack: the request, the state of its context when each layer
    looks at it, what the retry loop meets, and the clock readings.
  */
  datatype Visit = Visit(
    req: Request,
    endedAtCache: Option<Retry.Failure>,
    endedAtBreaker: Option<Retry.Failure>,
    attempts: Retry.World<Response>,
    canceled: bool,
    looked: Time,
    begun: Time,
    done: Time,
    swept: Time,
    stored: Time)

  datatype State = State(cache: SearchCache.Cache, breaker: Breaker.Fields)

  const FRESH := State(map[], Breaker.FRESH)

  function ErrorOf(r: Result<Response, Retry.Failure>): Option<string> {
    if r.Ok? then None else Some(r.error.message)
  }

  /** The breaker and the retry loop below it: new fields, the answer, calls to the provider. */
  ghost function Ask(o: Settings, f: Breaker.Fields, v: Visit): (Breaker.Fields, Result<Response, Refusal>, nat)
    requires Sane(o)
  {
    if v.endedAtBreaker.Some? then (f, Err(Ended(v.endedAtBreaker.value)), 0)
    else
      var (admitted, may) := Breaker.Admit(o.breaker, f, v.begun);
      if !may then (admitted, Err(CircuitOpen), 0)
      else
        var answer := Retry.Answer(v.attempts, o.retry.maxAttempts);
        var outcome := Breaker.Outcome(ErrorOf(answer), v.canceled);
        (Breaker.Complete(o.breaker, admitted, admitted.generation, outcome, v.done),
         if answer.Ok? then Ok(answer.value) else Err(Failed(answer.error)),
         Retry.Calls(v.attempts, o.retry.maxAttempts))
  }

  /** One search: a hit skips breaker and retry, and only successes are stored. */
  ghost function Serve(o: Settings, s: State, v: Visit): (State, Result<Response, Refusal>, nat)
    requires Sane(o)
  {
    if v.endedAtCache.Some? then (s, Err(Ended(v.endedAtCache.value)), 0)
    else if o.cache.ttl <= 0 then
      var (f, r, calls) := Ask(o, s.breaker, v);
      (s.(breaker := f), r, calls)
    else
      var key := SearchCache.CacheKey(v.req);
      var (c, hit) := SearchCache.Lookup(s.cache, key, v.looked);
      if hit.Some? then (s.(cache := c), Ok(hit.value), 0)
      else
        var (f, r, calls) := Ask(o, s.breaker, v);
        (State(if r.Ok? then SearchCache.Store(o.cache, c, key, r.value, v.swept, v.stored) else c, f), r, calls)
  }

  class Stack {
    const cache: SearchCache.CachingProvider
    const breaker: Breaker.CircuitBreaker
    const retry: Retry.Options

    ghost function Options(): Settings {
      Settings(cache.opts, breaker.opts, retry)
    }

    ghost function Contents(): State
      reads cache, breaker
    {
      State(cache.contents, breaker.Contents())
    }

    ghost predicate Valid()
      reads cache, cache.slices
    {
      Sane(Options()) && cache.Valid()
    }

    /** `Wrap`: cache(breaker(retry(inner))). */
    constructor (cfg: Config)
      requires cfg.retryBaseDelay < Retry.TWO_63
      ensures Valid() && fresh(cache) && fresh(breaker)
      ensures Options() == SettingsOf(cfg) && Contents() == FRESH
    {
      retry := Retry.Clamp(Retry.Options(cfg.retryMaxAttempts, cfg.retryBaseDelay));
      breaker := new Breaker.CircuitBreaker(Breaker.Options(cfg.breakerThreshold, cfg.breakerCooldown));
      cache := new SearchCache.CachingProvider(SearchCache.Options(cfg.cacheTTL, 0));
    }

    /** A search that missed the cache, or does not use it. */
    method AskBreaker(v: Visit) returns (r: Result<Response, Refusal>, calls: nat)
      requires Sane(Options()) && Retry.FairDraws(v.attempts)
      modifies breaker
      ensures (breaker.Contents(), r, calls) == Ask(Options(), old(breaker.Contents()), v)
    {
      if v.endedAtBreaker.Some? {
        return Err(Ended(v.endedAtBreaker.value)), 0;
      }
      var generation, admitted := breaker.BeforeCall(v.begun);
      if !admitted {
        return Err(CircuitOpen), 0;
      }
      var answer, made, _, n := Retry.Search(v.attempts, retry.maxAttempts, retry.baseDelay);
      Retry.LastAttemptIsFirstStop(v.attempts, retry.maxAttempts, 0, n);
      breaker.AfterCall(generation, ErrorOf(answer), v.canceled, v.done);
      r := if answer.Ok? then Ok(answer.value) else Err(Failed(answer.error));
      calls := made;
    }

    /** Stores a success, and only that. */
    method Keep(key: SearchCache.Key, r: Result<Response, Refusal>, swept: Time, stored: Time)
      requires cache.Valid()
      modifies cache
      ensures cache.Valid() && fresh(cache.slices - old(cache.slices))
      ensures cache.contents ==
        if r.Ok? then SearchCache.Store(cache.opts, old(cache.contents), key, r.value, swept, stored)
        else old(cache.contents)
    {
      if r.Ok? {
        var shared := SearchCache.Share(r.value);
        cache.Set(key, shared, swept, stored);
      }
    }

    /** A search through all three layers. */
    method Search(v: Visit) returns (r: Result<Response, Refusal>, calls: nat)
      requires Valid() && Retry.FairDraws(v.attempts)
      modifies cache, breaker
      ensures Valid() && fresh(cache.slices - old(cache.slices))
      ensures (Contents(), r, calls) == Serve(Options(), old(Contents()), v)
    {
      if v.endedAtCache.Some? {
        return Err(Ended(v.endedAtCache.value)), 0;
      }
      if cache.opts.ttl <= 0 {
        r, calls := AskBreaker(v);
        return;
      }
      var key := SearchCache.CacheKey(v.req);
      var hit := cache.Get(key, v.looked);
      if hit.Some? {
        return Ok(SearchCache.Value(hit.value)), 0;
      }
      r, calls := AskBreaker(v);
      Keep(key, r, v.swept, v.stored);
    }
  }

  // ---------------------------------------------------------------------------------
  // What a search comes to, and what it leaves behind
  // ---------------------------------------------------------------------------------

  /** The cache has an unexpired response to the request. */
  ghost predicate HasResponse(s: State, v: Visit) {
    SearchCache.CacheKey(v.req) in s.cache && v.looked < s.cache[SearchCache.CacheKey(v.req)].expiresAt
  }

  /** The search gets as far as the retry loop. */
  ghost predicate Reaches(o: Settings, s: State, v: Visit) {
    var f := s.breaker;
    && v.endedAtCache.None? && !(o.cache.ttl > 0 && HasResponse(s, v)) && v.endedAtBreaker.None?
    && (f.mode.Closed? || (f.mode.HalfOpen? && !f.busy) || (f.mode.Open? && f.openedAt + o.breaker.cooldown <= v.begun))
  }

  /**
    Where the answer comes from: the cache, without a call; or the last call to the
    provider, whatever it answered; or nobody was asked.
  */
  lemma AnswerHasSource(o: Settings, s: State, v: Visit)
    requires Sane(o)
    ensures var (after, r, calls) := Serve(o, s, v);
      && (calls > 0 <==> Reaches(o, s, v) && v.attempts.contextBefore(0).None?)
      && (calls > 0 ==>
            match v.attempts.answer(calls - 1)
            case Ok(resp) => r == Ok(resp)
            case Err(e) => r == Err(Failed(e)))
      && (v.endedAtCache.None? && o.cache.ttl > 0 && HasResponse(s, v) ==>
            r == Ok(s.cache[SearchCache.CacheKey(v.req)].resp) && after == s)
      && (calls == 0 && !(v.endedAtCache.None? && o.cache.ttl > 0 && HasResponse(s, v)) ==> r.Err?)
      && (r == Err(CircuitOpen) ==> s.breaker.mode.HalfOpen? || (s.breaker.mode.Open? && !Reaches(o, s, v)))
      && (o.cache.ttl <= 0 ==> after.cache == s.cache)
  {
  }

  /** A search without success leaves every cached response as it was. */
  lemma FailureKeepsResponses(o: Settings, s: State, v: Visit, key: SearchCache.Key, now: Time)
    requires Sane(o) && v.looked <= now && Serve(o, s, v).1.Err?
    ensures SearchCache.Lookup(Serve(o, s, v).0.cache, key, now).1 == SearchCache.Lookup(s.cache, key, now).1
  {
  }

  /** The breaker when no call is under way, whatever happened before; the cache may hold anything. */
  ghost predicate IsQuiet(o: Settings, start: Time, s: State) {
    var f := s.breaker;
    && !f.busy
    && (f.mode.Closed? ==> f.failures < o.breaker.threshold)
    && (f.mode.Open? ==> f.openedAt <= start)
  }

  /**
    What the breaker learns from a search by a caller who does not give up: from a success
    that it may close, from a failure one failure more, or the cooldown anew; and from a
    search that did not reach the retry loop nothing.
  */
  lemma BreakerLearns(o: Settings, s: State, v: Visit)
    requires Sane(o) && IsQuiet(o, v.begun, s) && !v.canceled
    ensures var before, after, r := s.breaker, Serve(o, s, v).0.breaker, Serve(o, s, v).1;
      if !Reaches(o, s, v) then after == before
      else if r.Ok? then after.mode.Closed? && after.failures == 0 && after.lastErr == None
      else
        && r.error.Failed? && after.lastErr == Some(r.error.value.message)
        && if before.mode.Closed? && before.failures + 1 < o.breaker.threshold
           then after.mode.Closed? && after.failures == before.failures + 1
           else after.mode.Open? && after.openedAt == v.done
  {
  }

  /** Searches one after the other, from some state of the stack. */
  ghost function Run(o: Settings, s0: State, vs: seq<Visit>): State
    requires Sane(o)
  {
    if vs == [] then s0 else Serve(o, Run(o, s0, vs[..|vs| - 1]), vs[|vs| - 1]).0
  }

  /** From a caller who gives up it learns nothing, except that a trial is over. */
  lemma BreakerIgnoresCancelled(o: Settings, s: State, v: Visit)
    requires Sane(o) && IsQuiet(o, v.begun, s) && v.canceled && Reaches(o, s, v)
    ensures var before, after := s.breaker, Serve(o, s, v).0.breaker;
      if before.mode.Closed? then after == before
      else after.mode.HalfOpen? && !after.busy && after.failures == before.failures && after.lastErr == before.lastErr
  {
  }

  /** What search `i` of a run comes to, and the calls it makes. */
  ghost function Reply(o: Settings, s0: State, vs: seq<Visit>, i: nat): Result<Response, Refusal>
    requires Sane(o) && i < |vs|
  {
    Serve(o, Run(o, s0, vs[..i]), vs[i]).1
  }

  ghost function Cost(o: Settings, s0: State, vs: seq<Visit>, i: nat): nat
    requires Sane(o) && i < |vs|
  {
    Serve(o, Run(o, s0, vs[..i]), vs[i]).2
  }

  /** Search `k` reads no clock later than `now`, and does not store into a cache full of unexpired responses. */
  ghost predicate LeavesRoom(o: Settings, s0: State, vs: seq<Visit>, k: nat, now: Time)
    requires Sane(o) && k < |vs|
  {
    && vs[k].looked <= now && vs[k].swept <= now
    && (Reply(o, s0, vs, k).Ok? && Cost(o, s0, vs, k) > 0 ==>
          !SearchCache.Overflows(o.cache, Run(o, s0, vs[..k]).cache, vs[k].swept))
  }

  lemma StillNoOverflow(o: Settings, c: SearchCache.Cache, less: SearchCache.Cache, swept: Time)
    requires less.Keys <= c.Keys && forall k <- less :: less[k] == c[k]
    ensures SearchCache.Overflows(o.cache, less, swept) ==> SearchCache.Overflows(o.cache, c, swept)
  {
    var a, b := SearchCache.WithoutExpired(less, swept), SearchCache.WithoutExpired(c, swept);
    SearchCache.Smaller(a.Keys, b.Keys);
    assert |a| == |a.Keys| && |b| == |b.Keys|;
  }

  /** A store under another key keeps an unexpired entry when it need not reset. */
  lemma StoreKeepsOther(o: Settings, c: SearchCache.Cache, own: SearchCache.Key, resp: Response,
                        swept: Time, stored: Time, key: SearchCache.Key, now: Time)
    requires key in c && key != own && swept <= now < c[key].expiresAt && !SearchCache.Overflows(o.cache, c, swept)
    ensures var after := SearchCache.Store(o.cache, c, own, resp, swept, stored);
      key in after && after[key] == c[key]
  {
    SearchCache.UnexpiredAreFewer(c, swept);
  }

  /** What a search does to the cache. */
  lemma CacheAfter(o: Settings, s: State, v: Visit)
    requires Sane(o) && o.cache.ttl > 0
    ensures var (after, r, calls) := Serve(o, s, v);
      var key := SearchCache.CacheKey(v.req);
      var c := SearchCache.Lookup(s.cache, key, v.looked).0;
      after.cache ==
        if v.endedAtCache.Some? then s.cache
        else if r.Ok? && calls > 0 then SearchCache.Store(o.cache, c, key, r.value, v.swept, v.stored)
        else c
    ensures Serve(o, s, v).2 > 0 ==> !HasResponse(s, v)
  {
  }

  /** A response stays cached through a search that leaves room for it. */
  lemma ResponseStays(o: Settings, s: State, v: Visit, key: SearchCache.Key, entry: SearchCache.Entry, now: Time)
    requires Sane(o) && o.cache.ttl > 0 && key in s.cache && s.cache[key] == entry && now < entry.expiresAt
    requires v.looked <= now && v.swept <= now
    requires Serve(o, s, v).1.Ok? && Serve(o, s, v).2 > 0 ==> !SearchCache.Overflows(o.cache, s.cache, v.swept)
    ensures key in Serve(o, s, v).0.cache && Serve(o, s, v).0.cache[key] == entry
  {
    hide Serve, SearchCache.Overflows, SearchCache.Store;
    var own := SearchCache.CacheKey(v.req);
    var c := SearchCache.Lookup(s.cache, own, v.looked).0;
    CacheAfter(o, s, v);
    if Serve(o, s, v).1.Ok? && Serve(o, s, v).2 > 0 {
      StillNoOverflow(o, s.cache, c, v.swept);
      StoreKeepsOther(o, c, own, Serve(o, s, v).1.value, v.swept, v.stored, key, now);
    }
  }

  lemma {:induction false} StoredStays(o: Settings, s0: State, vs: seq<Visit>, i: nat, j: nat, now: Time)
    requires Sane(o) && o.cache.ttl > 0 && i < j <= |vs|
    requires Reply(o, s0, vs, i).Ok? && Cost(o, s0, vs, i) > 0 && now < vs[i].stored + o.cache.ttl
    requires forall k | i < k < j :: LeavesRoom(o, s0, vs, k, now)
    ensures var key, c := SearchCache.CacheKey(vs[i].req), Run(o, s0, vs[..j]).cache;
      key in c && c[key] == SearchCache.Entry(Reply(o, s0, vs, i).value, vs[i].stored + o.cache.ttl)
    decreases j
  {
    assert vs[..j][..j - 1] == vs[..j - 1];
    if j == i + 1 {
    } else {
      hide Serve;
      StoredStays(o, s0, vs, i, j - 1, now);
      assert LeavesRoom(o, s0, vs, j - 1, now);
      ResponseStays(o, Run(o, s0, vs[..j - 1]), vs[j - 1], SearchCache.CacheKey(vs[i].req),
                    SearchCache.Entry(Reply(o, s0, vs, i).value, vs[i].stored + o.cache.ttl), now);
    }
  }

  /**
    A provider's success is served again: until its TTL has passed, and unless a store
    since found the cache full, every search with an equal key gets the same response,
    without a call, and without a trace in breaker or cache.
  */
  lemma SuccessIsServedAgain(o: Settings, s0: State, vs: seq<Visit>, i: nat, j: nat)
    requires Sane(o) && o.cache.ttl > 0 && i < j < |vs|
    requires Reply(o, s0, vs, i).Ok? && Cost(o, s0, vs, i) > 0
    requires SearchCache.CacheKey(vs[j].req) == SearchCache.CacheKey(vs[i].req) && vs[j].endedAtCache.None?
    requires vs[j].looked < vs[i].stored + o.cache.ttl
    requires forall k | i < k < j :: LeavesRoom(o, s0, vs, k, vs[j].looked)
    ensures Reply(o, s0, vs, j) == Reply(o, s0, vs, i) && Cost(o, s0, vs, j) == 0
    ensures Run(o, s0, vs[..j + 1]) == Run(o, s0, vs[..j])
  {
    hide LeavesRoom;
    StoredStays(o, s0, vs, i, j, vs[j].looked);
    AnswerHasSource(o, Run(o, s0, vs[..j]), vs[j]);
    assert vs[..j + 1][..j] == vs[..j];
  }

  // ---------------------------------------------------------------------------------
  // A provider that is down
  // ---------------------------------------------------------------------------------

  /** The calls that reach the provider. */
  ghost function Load(o: Settings, s0: State, vs: seq<Visit>): nat
    requires Sane(o)
  {
    if vs == [] then 0 else
      Load(o, s0, vs[..|vs| - 1]) + Serve(o, Run(o, s0, vs[..|vs| - 1]), vs[|vs| - 1]).2
  }

  ghost function End(start: Time, vs: seq<Visit>): Time {
    if vs == [] then start else vs[|vs| - 1].done
  }

  /** The clock never goes back, and no search begins before the one before it is done. */
  ghost predicate Sequential(start: Time, vs: seq<Visit>) {
    vs == [] ||
    (Sequential(start, vs[..|vs| - 1]) && End(start, vs[..|vs| - 1]) <= vs[|vs| - 1].begun <= vs[|vs| - 1].done)
  }

  /** Every attempt fails, and no caller gives up. */
  ghost predicate Outage(vs: seq<Visit>) {
    forall v <- vs :: !v.canceled && forall i: nat :: v.attempts.answer(i).Err?
  }

  /** A breaker is quiet whenever nothing is in flight, after any run of any callers. */
  lemma QuietAfterAnyRun(o: Settings, cache: SearchCache.Cache, start: Time, es: seq<Protocol.Event>)
    requires Sane(o) && Protocol.Legal(o.breaker, start, es)
    requires Protocol.Run(o.breaker, start, es).inflight == multiset{}
    ensures var after := Protocol.Run(o.breaker, start, es);
      IsQuiet(o, after.now, State(cache, after.fields))
  {
    Protocol.RunKeepsInv(o.breaker, start, es);
  }

  /** `admitted` searches have got past the breaker since `start`, none with success. */
  ghost predicate Tripping(o: Settings, start: Time, s: State, end: Time, admitted: nat) {
    var f := s.breaker;
    && !f.busy
    && (f.mode.HalfOpen? ==> admitted == 0)
    && (f.mode.Closed? ==> admitted <= f.failures < o.breaker.threshold)
    // every search admitted since the breaker tripped has taken a cooldown of its own
    && (f.mode.Open? ==> f.openedAt <= end && (admitted == 0 || Cooldowns(o, admitted) <= f.openedAt - start))
  }

  /** `each`, `n` times over. */
  function Times(n: nat, each: int): int {
    if n == 0 then 0 else Times(n - 1, each) + each
  }

  lemma {:induction false} TimesIsProduct(n: nat, each: int)
    ensures Times(n, each) == n * each
  {
    if n == 0 {
    } else {
      TimesIsProduct(n - 1, each);
      assert n * each == (n - 1) * each + each;
    }
  }

  /** How long `admitted` failing searches take at least: all but `threshold` wait out a cooldown. */
  function Cooldowns(o: Settings, admitted: nat): Time {
    if admitted <= o.breaker.threshold then 0 else Times(admitted - o.breaker.threshold, o.breaker.cooldown)
  }

  lemma OneMoreCooldown(o: Settings, admitted: nat)
    ensures Cooldowns(o, admitted + 1)
         == Cooldowns(o, admitted) + if admitted < o.breaker.threshold then 0 else o.breaker.cooldown
  {
    if admitted >= o.breaker.threshold {
      var n: nat := admitted - o.breaker.threshold;
      assert Times(n + 1, o.breaker.cooldown) == Times(n, o.breaker.cooldown) + o.breaker.cooldown;
    }
  }

  /** A failing search costs the provider something only if the breaker lets it through. */
  lemma VisitWhileDown(o: Settings, start: Time, s: State, end: Time, admitted: nat, v: Visit) returns (more: nat)
    requires Sane(o) && Tripping(o, start, s, end, admitted) && start <= end <= v.begun <= v.done
    requires !v.canceled && forall i: nat :: v.attempts.answer(i).Err?
    ensures admitted <= more <= admitted + 1
    ensures Tripping(o, start, Serve(o, s, v).0, v.done, more)
    ensures Serve(o, s, v).2 <= if more > admitted then o.retry.maxAttempts else 0
  {
    var (f, may) := Breaker.Admit(o.breaker, s.breaker, v.begun);
    var hit := o.cache.ttl > 0 && SearchCache.Lookup(s.cache, SearchCache.CacheKey(v.req), v.looked).1.Some?;
    if v.endedAtCache.Some? || hit || v.endedAtBreaker.Some? || !may {
      more := admitted;
    } else {
      more := admitted + 1;
      assert Retry.Answer(v.attempts, o.retry.maxAttempts).Err?;
      OneMoreCooldown(o, admitted);
    }
  }

  lemma {:induction false} RunWhileDown(o: Settings, s0: State, start: Time, vs: seq<Visit>) returns (admitted: nat)
    requires Sane(o) && IsQuiet(o, start, s0) && Sequential(start, vs) && Outage(vs)
    ensures start <= End(start, vs)
    ensures Tripping(o, start, Run(o, s0, vs), End(start, vs), admitted)
    ensures Load(o, s0, vs) <= Times(admitted, o.retry.maxAttempts)
  {
    if vs == [] {
      admitted := 0;
    } else {
      hide Serve, Tripping;
      var vs', v := vs[..|vs| - 1], vs[|vs| - 1];
      assert v in vs;
      var before := RunWhileDown(o, s0, start, vs');
      admitted := VisitWhileDown(o, start, Run(o, s0, vs'), End(start, vs'), before, v);
    }
  }

  lemma Scale(x: int, y: int, d: nat)
    ensures x <= y ==> x * d <= y * d
  {
  }

  lemma WholeCooldowns(k: int, x: int, d: int)
    requires 0 < d && k * d <= x
    ensures k <= x / d
  {
    var q := x / d;
    assert x < q * d + d == (q + 1) * d;
    Scale(q + 1, k, d);
  }

  /** The counts of a run put together. */
  lemma LoadWithin(load: int, attempts: nat, admitted: nat, threshold: nat, passed: nat, cooldown: int)
    requires 0 < cooldown && load <= Times(admitted, attempts)
    requires admitted <= threshold || Times(admitted - threshold, cooldown) <= passed
    ensures load <= attempts * (threshold + passed / cooldown)
  {
    TimesIsProduct(admitted, attempts);
    if admitted > threshold {
      TimesIsProduct(admitted - threshold, cooldown);
      WholeCooldowns(admitted - threshold, passed, cooldown);
    }
    Scale(admitted, threshold + passed / cooldown, attempts);
  }

  /**
    How hard a dead provider is hit: however many searches come in from `start` on, and in
    whatever state the stack was, by time `End` the provider has seen at most `threshold`
    searches plus one for every whole cooldown that has passed, each of at most
    `maxAttempts` calls.
  */
  lemma OutageLoad(o: Settings, s0: State, start: Time, vs: seq<Visit>)
    requires Sane(o) && IsQuiet(o, start, s0) && Sequential(start, vs) && Outage(vs)
    ensures Load(o, s0, vs)
         <= o.retry.maxAttempts * (o.breaker.threshold + (End(start, vs) - start) / o.breaker.cooldown)
  {
    hide Serve, Run, Load;
    var admitted := RunWhileDown(o, s0, start, vs);
    var passed := End(start, vs) - start;
    LoadWithin(Load(o, s0, vs), o.retry.maxAttempts, admitted, o.breaker.threshold, passed, o.breaker.cooldown);
  }

  // ---------------------------------------------------------------------------------
  // The bound is reached
  // ---------------------------------------------------------------------------------

  /** When the search after `n` searches is made: at once until the breaker trips, then every cooldown. */
  function BusyAt(o: Settings, start: Time, n: nat): Time {
    start + Cooldowns(o, n)
  }

  /** A search at `at` that fails in every attempt, with an error worth retrying. */
  function FailingVisit(req: Request, at: Time): Visit {
    var answer: nat -> Result<Response, Retry.Failure> := i => Err(Retry.Failure("503", false, false, false, None));
    Visit(req, None, None, Retry.World(i => None, answer, i => None, (i, n) => 0), false, at, at, at, at, at)
  }

  function BusyVisits(o: Settings, start: Time, req: Request, n: nat): seq<Visit> {
    if n == 0 then [] else BusyVisits(o, start, req, n - 1) + [FailingVisit(req, BusyAt(o, start, n))]
  }

  lemma FailingVisitCalls(req: Request, at: Time, maxAttempts: nat)
    requires maxAttempts >= 1
    ensures Retry.Calls(FailingVisit(req, at).attempts, maxAttempts) == maxAttempts
    ensures Retry.Answer(FailingVisit(req, at).attempts, maxAttempts).Err?
  {
    Retry.LastAttemptIsFirstStop(FailingVisit(req, at).attempts, maxAttempts, 0, maxAttempts - 1);
  }

  /** The stack after `n` such searches. */
  ghost predicate Busy(o: Settings, start: Time, s: State, n: nat) {
    && s.cache == map[]
    && if n < o.breaker.threshold then s.breaker.mode.Closed? && s.breaker.failures == n
       else s.breaker.mode.Open? && s.breaker.openedAt == BusyAt(o, start, n)
  }

  /** An outage from a fresh stack that ends at `end` in state `s`, after `load` calls. */
  ghost predicate IsOutage(o: Settings, start: Time, vs: seq<Visit>, s: State, load: int, end: Time) {
    && Sane(o) && Sequential(start, vs) && Outage(vs)
    && Run(o, FRESH, vs) == s && Load(o, FRESH, vs) == load && End(start, vs) == end
  }

  lemma OneMoreVisit(o: Settings, start: Time, vs: seq<Visit>, s: State, load: int, end: Time, v: Visit)
    requires Sane(o) && IsOutage(o, start, vs, s, load, end)
    requires end <= v.begun <= v.done && Outage([v])
    ensures IsOutage(o, start, vs + [v], Serve(o, s, v).0, load + Serve(o, s, v).2, v.done)
  {
    hide Serve;
    assert (vs + [v])[..|vs|] == vs && v in [v];
  }

  /** One more of them comes when the breaker is ready for it, and costs `maxAttempts` calls. */
  lemma BusyServe(o: Settings, start: Time, req: Request, s: State, n: nat)
    requires Sane(o) && Busy(o, start, s, n)
    ensures BusyAt(o, start, n) <= BusyAt(o, start, n + 1)
    ensures var served := Serve(o, s, FailingVisit(req, BusyAt(o, start, n + 1)));
      Busy(o, start, served.0, n + 1) && served.2 == o.retry.maxAttempts
  {
    OneMoreCooldown(o, n);
    FailingVisitCalls(req, BusyAt(o, start, n + 1), o.retry.maxAttempts);
  }

  lemma BusyVisit(o: Settings, start: Time, req: Request, vs: seq<Visit>, before: State, load: int, n: nat)
    returns (s: State)
    requires Sane(o) && Busy(o, start, before, n) && IsOutage(o, start, vs, before, load, BusyAt(o, start, n))
    ensures Busy(o, start, s, n + 1)
    ensures IsOutage(o, start, vs + [FailingVisit(req, BusyAt(o, start, n + 1))],
                     s, load + o.retry.maxAttempts, BusyAt(o, start, n + 1))
  {
    hide IsOutage, Serve, Busy;
    var v := FailingVisit(req, BusyAt(o, start, n + 1));
    BusyServe(o, start, req, before, n);
    OneMoreVisit(o, start, vs, before, load, BusyAt(o, start, n), v);
    s := Serve(o, before, v).0;
  }

  lemma NoVisitYet(o: Settings, start: Time)
    requires Sane(o)
    ensures Busy(o, start, FRESH, 0) && IsOutage(o, start, [], FRESH, 0, BusyAt(o, start, 0))
  {
  }

  lemma {:induction false} BusyRun(o: Settings, start: Time, req: Request, n: nat) returns (s: State)
    requires Sane(o)
    ensures Busy(o, start, s, n)
    ensures IsOutage(o, start, BusyVisits(o, start, req, n), s, Times(n, o.retry.maxAttempts), BusyAt(o, start, n))
  {
    hide IsOutage, Busy, BusyAt;
    if n == 0 {
      s := FRESH;
      NoVisitYet(o, start);
    } else {
      var before := BusyRun(o, start, req, n - 1);
      s := BusyVisit(o, start, req, BusyVisits(o, start, req, n - 1), before, Times(n - 1, o.retry.maxAttempts), n - 1);
    }
  }

  lemma Quotient(k: int, d: int)
    requires 0 < d
    ensures k * d / d == k
  {
    WholeCooldowns(k, k * d, d);
    var q := k * d / d;
    assert q * d <= k * d < k * d + d == (k + 1) * d;
    Scale(k + 1, q, d);
  }

  /** What those counts come to. */
  lemma BusyTotals(o: Settings, start: Time, cooldowns: nat)
    requires Sane(o)
    ensures (BusyAt(o, start, o.breaker.threshold + cooldowns) - start) / o.breaker.cooldown == cooldowns
    ensures Times(o.breaker.threshold + cooldowns, o.retry.maxAttempts)
         == o.retry.maxAttempts * (o.breaker.threshold + cooldowns)
  {
    TimesIsProduct(o.breaker.threshold + cooldowns, o.retry.maxAttempts);
    TimesIsProduct(cooldowns, o.breaker.cooldown);
    Quotient(cooldowns, o.breaker.cooldown);
  }

  /** For every configuration and every number of cooldowns, some outage meets the bound exactly. */
  lemma OutageLoadIsReached(o: Settings, start: Time, req: Request, cooldowns: nat)
    requires Sane(o)
    ensures var vs := BusyVisits(o, start, req, o.breaker.threshold + cooldowns);
      && Sequential(start, vs) && Outage(vs)
      && (End(start, vs) - start) / o.breaker.cooldown == cooldowns
      && Load(o, FRESH, vs) == o.retry.maxAttempts * (o.breaker.threshold + cooldowns)
  {
    var n := o.breaker.threshold + cooldowns;
    var s := BusyRun(o, start, req, n);
    BusyTotals(o, start, cooldowns);
  }
}
