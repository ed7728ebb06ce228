/**
  The service over caching providers returns what it returns over the providers
  themselves, whatever the caches hold by then.
*/
module Transparency {
  import opened Wrappers
  import opened Numbers
  import opened SearchTypes
  import opened Fusion
  import opened Selection
  import opened FallbackChain
  import opened Service
  import Cache = SearchCache

  /**
    What one provider's cache has seen so far: searches that looked a request up, and
    searches that stored the answer after a miss. Requests are those of the service's
    callers, filters included; the events of concurrent searches may interleave.
  */
  datatype Visit =
    | Looked(req: Request, at: Time)
    | Stored(req: Request, swept: Time, at: Time)

  /** The same history as the cache sees it: requests stripped, failures not stored. */
  ghost function Trace(inner: Provider, visits: seq<Visit>): seq<Cache.Event> {
    if visits == [] then [] else
      Trace(inner, visits[..|visits| - 1]) +
      match visits[|visits| - 1]
      case Looked(req, at) => [Cache.Get(Strip(req), at)]
      case Stored(req, swept, at) =>
        match inner(Strip(req))
        case Ok(resp) => [Cache.Set(Strip(req), resp, swept, at)]
        case Err(_) => []
  }

  /** The provider behind its cache, as it answers at time `now` after these visits. */
  ghost function Cached(o: Cache.Options, inner: Provider, visits: seq<Visit>, now: Time): Provider {
    req =>
      if o.ttl <= 0 then inner(req)
      else
        match Cache.Lookup(Cache.Run(o, Trace(inner, visits)), Cache.CacheKey(req), now).1
        case Some(resp) => Ok(resp)
        case None => inner(req)
  }

  lemma {:induction false} TraceStoresAnswers(inner: Provider, visits: seq<Visit>)
    ensures Cache.StoresAnswersOf(Trace(inner, visits), inner)
  {
    if visits == [] {
    } else {
      TraceStoresAnswers(inner, visits[..|visits| - 1]);
    }
  }

  /**
    A provider is asked what the caller asked for, but for a pool of candidates, and without
    the filters that are applied to merged results.
  */
  lemma StripLiftsFilters(req: Request)
    ensures Cache.Stripped(Strip(req))
    ensures Cache.CacheKey(Strip(req)) == Cache.CacheKey(req).(count := CandidateCount(req))
  {
  }

  /** To a stripped request, the cached provider answers as the provider itself does. */
  lemma CachedAnswersAlike(o: Cache.Options, inner: Provider, visits: seq<Visit>, now: Time, req: Request)
    ensures Cached(o, inner, visits, now)(Strip(req)) == inner(Strip(req))
  {
    var es := Trace(inner, visits);
    TraceStoresAnswers(inner, visits);
    if Cache.Lookup(Cache.Run(o, es), Cache.CacheKey(Strip(req)), now).1.Some? {
      Cache.HitsAreTransparent(o, es, inner, Strip(req), now);
    }
  }

  /** The setup with every provider behind a cache of its own. */
  ghost function Behind(s: Setup, o: Cache.Options, visits: string -> seq<Visit>, now: string -> Time): Setup {
    s.(providers := map name | name in s.providers :: Cached(o, s.providers[name], visits(name), now(name)))
  }

  lemma SearchesAgree(s: Setup, o: Cache.Options, visits: string -> seq<Visit>, now: string -> Time, req: Request)
    ensures Agree(EachAlone(s, req), EachAlone(Behind(s, o, visits, now), req))
  {
    var c := Behind(s, o, visits, now);
    forall name
      ensures EachAlone(s, req)(name) == EachAlone(c, req)(name)
    {
      if name in s.providers {
        CachedAnswersAlike(o, s.providers[name], visits(name), now(name), req.(provider := name));
      }
    }
  }

  /** A fan-out returns the same with and without the caches. */
  lemma FanOutIsTransparent(s: Setup, o: Cache.Options, visits: string -> seq<Visit>, now: string -> Time,
                            req: Request, ended: Option<string>, names: seq<string>)
    ensures FanOut(Behind(s, o, visits, now), req, ended, names) == FanOut(s, req, ended, names)
  {
    SearchesAgree(s, o, visits, now, req);
    SameFailures(EachAlone(s, req), EachAlone(Behind(s, o, visits, now), req), names);
  }

  /** So does the fallback chain: it stops at the same attempt, with the same result. */
  lemma ChainIsTransparent(s: Setup, o: Cache.Options, visits: string -> seq<Visit>, now: string -> Time,
                           req: Request, ctx: Context, order: seq<string>, n: nat)
    requires order != [] && StopsAt(EachSelected(s, req), ctx, order, n)
    ensures var c := EachSelected(Behind(s, o, visits, now), req);
      && StopsAt(c, ctx, order, n)
      && ChainResult(c, ctx, order, n) == ChainResult(EachSelected(s, req), ctx, order, n)
  {
    var c := Behind(s, o, visits, now);
    SearchesAgree(s, o, visits, now, req);
    assert Agree(EachSelected(s, req), EachSelected(c, req));
    SameChain(EachSelected(s, req), EachSelected(c, req), ctx, order, n);
  }

  /** Two setups with the same providers by name, which answer a request alike. */
  ghost predicate Alike(a: Setup, b: Setup, p: Request) {
    && a.providers.Keys == b.providers.Keys
    && a.hostOf == b.hostOf && a.web == b.web
    && Agree(EachAlone(a, p), EachAlone(b, p))
  }

  lemma FannedAlike(a: Setup, b: Setup, p: Request, ctx: Context, names: seq<string>)
    requires Alike(a, b, p) && IsEverybody(a, names)
    ensures IsEverybody(b, names) && FanOut(b, p, ctx.before(0), names) == FanOut(a, p, ctx.before(0), names)
  {
    SameFailures(EachAlone(a, p), EachAlone(b, p), names);
  }

  lemma ChainedAlike(a: Setup, b: Setup, p: Request, ctx: Context, order: seq<string>, n: nat,
                     r: Result<Response, SearchError>)
    requires Alike(a, b, p) && p.provider in a.providers
    requires IsChained(a, p, ctx, order, n, r)
    ensures IsChained(b, p, ctx, order, n, r)
  {
    assert Agree(EachSelected(a, p), EachSelected(b, p));
    SameChain(EachSelected(a, p), EachSelected(b, p), ctx, order, n);
  }

  lemma AnsweredAlike(a: Setup, b: Setup, req: Request, ctx: Context, r: Result<Response, SearchError>)
    requires Prepare(a, req) == Prepare(b, req)
    requires Prepare(a, req).Ok? ==> Alike(a, b, Prepare(a, req).value)
    requires IsAnswer(a, req, ctx, r)
    ensures IsAnswer(b, req, ctx, r)
  {
    if Prepare(a, req).Ok? {
      var p := Prepare(a, req).value;
      if p.provider == ALL_PROVIDERS {
        var names :| IsEverybody(a, names) && r == FanOut(a, p, ctx.before(0), names);
        FannedAlike(a, b, p, ctx, names);
      } else {
        var order, n: nat :| IsChained(a, p, ctx, order, n, r);
        ChainedAlike(a, b, p, ctx, order, n, r);
      }
    }
  }

  lemma PreparedAlike(a: Setup, b: Setup, req: Request)
    requires a.providers.Keys == b.providers.Keys
    requires a.toLower == b.toLower && a.normalizeDomains == b.normalizeDomains
    ensures Prepare(a, req) == Prepare(b, req)
  {
    assert |a.providers| == |a.providers.Keys| == |b.providers.Keys| == |b.providers|;
  }

  /**
    A whole search behind the caches may give exactly the answers it may give without
    them, whatever the caches hold.
  */
  lemma SearchIsTransparent(s: Setup, o: Cache.Options, visits: string -> seq<Visit>, now: string -> Time,
                            req: Request, ctx: Context, r: Result<Response, SearchError>)
    ensures IsAnswer(Behind(s, o, visits, now), req, ctx, r) <==> IsAnswer(s, req, ctx, r)
  {
    var c := Behind(s, o, visits, now);
    PreparedAlike(s, c, req);
    if Prepare(s, req).Ok? {
      SearchesAgree(s, o, visits, now, Prepare(s, req).value);
    }
    if IsAnswer(s, req, ctx, r) {
      AnsweredAlike(s, c, req, ctx, r);
    }
    if IsAnswer(c, req, ctx, r) {
      AnsweredAlike(c, s, req, ctx, r);
    }
  }
}
