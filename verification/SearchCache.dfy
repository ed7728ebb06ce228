/**
  The TTL cache around a search provider. `Lookup` and `Store` say what its two locked
  sections do to the cached values; class `CachingProvider` holds the slices themselves, so
  that copying in and copying out can be told from sharing.
*/
module SearchCache {
  import opened Wrappers
  import opened Numbers
  import opened SearchTypes

  /** The fields the cache key lists: all of a request except its local filters. */
  datatype Key = Key(
    query: string,
    count: int,
    country: string,
    language: string,
    safeSearch: string,
    freshness: string,
    provider: string,
    headers: map<string, string>)

  function CacheKey(r: Request): Key {
    Key(r.query, r.count, r.country, r.language, r.safeSearch, r.freshness, r.provider, r.extraHeaders)
  }

  datatype Options = Options(ttl: int, maxEntries: int)

  /** The constructor's default for the size bound. */
  function Clamp(o: Options): (r: Options)
    ensures r.maxEntries > 0 && r.ttl == o.ttl
    ensures o.maxEntries > 0 ==> r == o
    ensures o.maxEntries <= 0 ==> r.maxEntries == 1024
  {
    if o.maxEntries <= 0 then o.(maxEntries := 1024) else o
  }

  // ---------------------------------------------------------------------------------
  // The cache as a value
  // ---------------------------------------------------------------------------------

  datatype Entry = Entry(resp: Response, expiresAt: Time)

  type Cache = map<Key, Entry>

  /** `get`: lazy expiry, and the answer if there is one. */
  function Lookup(c: Cache, key: Key, now: Time): (Cache, Option<Response>) {
    if key !in c then (c, None)
    else if now >= c[key].expiresAt then (c - {key}, None)
    else (c, Some(c[key].resp))
  }

  /** A lookup removes the entry it finds expired, and nothing else: what is left under the key is what it found. */
  lemma LookupRemovesExpired(c: Cache, key: Key, now: Time)
    ensures var (after, found) := Lookup(c, key, now);
      && after.Keys <= c.Keys && (forall k <- after :: after[k] == c[k])
      && (forall k <- c :: k in after <==> k != key || found.Some?)
      && (found.Some? <==> key in c && now < c[key].expiresAt)
      && (found.Some? ==> found.value == c[key].resp)
  {
  }

  function WithoutExpired(c: Cache, now: Time): Cache {
    map k | k in c && now < c[k].expiresAt :: c[k]
  }

  /** A sweep leaves exactly the entries that lookups would still find. */
  lemma SweepLeavesWhatIsFound(c: Cache, now: Time, k: Key)
    ensures k in WithoutExpired(c, now) <==> Lookup(c, k, now).1.Some?
    ensures k in WithoutExpired(c, now) ==> Lookup(c, k, now).1 == Some(WithoutExpired(c, now)[k].resp)
  {
  }

  /** The sweep under way: `todo` is left to look at, what else is there has not expired. */
  ghost predicate Sweeping(before: Cache, c: Cache, todo: set<Key>, now: Time) {
    && todo <= c.Keys
    && WithoutExpired(c, now) == WithoutExpired(before, now)
    && forall k <- c :: k in todo || now < c[k].expiresAt
  }

  lemma SweepDrops(before: Cache, c: Cache, todo: set<Key>, now: Time, k: Key)
    requires Sweeping(before, c, todo, now) && k in todo && now >= c[k].expiresAt
    ensures Sweeping(before, c - {k}, todo - {k}, now)
  {
    assert WithoutExpired(c - {k}, now) == WithoutExpired(c, now);
  }

  lemma SweepKeeps(before: Cache, c: Cache, todo: set<Key>, now: Time, k: Key)
    requires Sweeping(before, c, todo, now) && k in todo && now < c[k].expiresAt
    ensures Sweeping(before, c, todo - {k}, now)
  {
  }

  lemma SweepEnds(before: Cache, c: Cache, now: Time)
    requires Sweeping(before, c, {}, now)
    ensures c == WithoutExpired(before, now)
  {
  }

  /** What is left of the cache when room has been made for one more entry. */
  function Room(c: Cache, maxEntries: int, now: Time): Cache {
    if |c| < maxEntries then c
    else if |WithoutExpired(c, now)| < maxEntries then WithoutExpired(c, now)
    else map[]
  }

  /**
    Only a full cache loses entries to make room: the expired ones, if that is enough, and
    otherwise all.
  */
  lemma RoomIsMadeWhenFull(c: Cache, maxEntries: int, now: Time, k: Key)
    requires k in c
    ensures var unexpired := set x | x in c && now < c[x].expiresAt;
      k in Room(c, maxEntries, now) <==> |c| < maxEntries || (k in unexpired && |unexpired| < maxEntries)
    ensures k in Room(c, maxEntries, now) ==> Room(c, maxEntries, now)[k] == c[k]
  {
    assert WithoutExpired(c, now).Keys == set x | x in c && now < c[x].expiresAt;
    assert |WithoutExpired(c, now)| == |WithoutExpired(c, now).Keys|;
  }

  /** `set`: the clock is read when sweeping and again for the new entry's expiry. */
  function Store(o: Options, c: Cache, key: Key, resp: Response, swept: Time, now: Time): Cache {
    Room(c, o.maxEntries, swept)[key := Entry(resp, now + o.ttl)]
  }

  // ---------------------------------------------------------------------------------
  // Runs
  // ---------------------------------------------------------------------------------

  /**
    The locked sections in the order the mutex lets them happen. Callers may interleave
    freely: a caller that missed stores its answer whenever it gets to.
  */
  datatype Event =
    | Get(req: Request, at: Time)
    | Set(req: Request, resp: Response, swept: Time, at: Time)

  function Apply(o: Options, c: Cache, e: Event): Cache {
    match e
    case Get(req, at) => Lookup(c, CacheKey(req), at).0
    case Set(req, resp, swept, at) => Store(o, c, CacheKey(req), resp, swept, at)
  }

  function Run(o: Options, es: seq<Event>): Cache {
    if es == [] then map[] else Apply(o, Run(o, es[..|es| - 1]), es[|es| - 1])
  }

  lemma ApplyKeepsBound(o: Options, c: Cache, e: Event)
    requires o.maxEntries > 0 && |c| <= o.maxEntries
    ensures |Apply(o, c, e)| <= o.maxEntries
  {
    var c' := Apply(o, c, e);
    match e
    case Get(req, at) =>
      assert c'.Keys <= c.Keys;
      Smaller(c'.Keys, c.Keys);
    case Set(req, resp, swept, at) =>
      var room := Room(c, o.maxEntries, swept);
      assert |room| < o.maxEntries;
      assert c'.Keys == room.Keys + {CacheKey(req)};
  }

  /** The cache never exceeds its size bound. */
  lemma {:induction false} BoundHolds(o: Options, es: seq<Event>)
    requires o.maxEntries > 0
    ensures |Run(o, es)| <= o.maxEntries
  {
    if es == [] {
    } else {
      BoundHolds(o, es[..|es| - 1]);
      ApplyKeepsBound(o, Run(o, es[..|es| - 1]), es[|es| - 1]);
    }
  }

  /** The latest store under a key, and when it happened. */
  ghost function LastSet(es: seq<Event>, key: Key): Option<(Response, Time)> {
    if es == [] then None else
      var e := es[|es| - 1];
      if e.Set? && CacheKey(e.req) == key then Some((e.resp, e.at)) else LastSet(es[..|es| - 1], key)
  }

  /** Every entry is the latest store under its key, good for one TTL from then. */
  ghost predicate Tracks(o: Options, c: Cache, es: seq<Event>) {
    forall k <- c :: LastSet(es, k).Some? && c[k] == Entry(LastSet(es, k).value.0, LastSet(es, k).value.1 + o.ttl)
  }

  lemma {:induction false} EntriesAreLatestStores(o: Options, es: seq<Event>)
    ensures Tracks(o, Run(o, es), es)
  {
    if es == [] {
    } else {
      var es', e := es[..|es| - 1], es[|es| - 1];
      EntriesAreLatestStores(o, es');
      var c, c' := Run(o, es'), Run(o, es);
      forall k <- c'
        ensures LastSet(es, k).Some? && c'[k] == Entry(LastSet(es, k).value.0, LastSet(es, k).value.1 + o.ttl)
      {
        if e.Get? || CacheKey(e.req) != k {
          assert k in c && c'[k] == c[k];
        }
      }
    }
  }

  /** A hit is the latest response stored under the same key, less than a TTL ago. */
  lemma {:induction false} HitIsLatestAndFresh(o: Options, es: seq<Event>, req: Request, now: Time)
    requires Lookup(Run(o, es), CacheKey(req), now).1.Some?
    ensures var hit, last := Lookup(Run(o, es), CacheKey(req), now).1.value, LastSet(es, CacheKey(req));
      last.Some? && hit == last.value.0 && now < last.value.1 + o.ttl
  {
    EntriesAreLatestStores(o, es);
  }

  /** A store that sweeps at `swept` still finds the cache full, and resets it. */
  ghost predicate Overflows(o: Options, c: Cache, swept: Time) {
    |WithoutExpired(c, swept)| >= o.maxEntries
  }

  /** Some store since the last one under `key` overflowed. */
  ghost predicate ResetSince(o: Options, es: seq<Event>, key: Key) {
    if es == [] then false else
      var es', e := es[..|es| - 1], es[|es| - 1];
      && !(e.Set? && CacheKey(e.req) == key)
      && (ResetSince(o, es', key) || (e.Set? && Overflows(o, Run(o, es'), e.swept)))
  }

  ghost predicate ClockedBefore(es: seq<Event>, now: Time) {
    forall e <- es :: e.at <= now
  }

  ghost predicate SweptBefore(es: seq<Event>, now: Time) {
    forall e <- es :: e.Set? ==> e.swept <= now
  }

  lemma UnexpiredAreFewer(c: Cache, now: Time)
    ensures |WithoutExpired(c, now)| <= |c|
  {
    Smaller(WithoutExpired(c, now).Keys, c.Keys);
    assert |WithoutExpired(c, now).Keys| == |WithoutExpired(c, now)| && |c.Keys| == |c|;
  }

  /** An event for another key loses an unexpired entry exactly when it overflows. */
  lemma OtherEventKeeps(o: Options, c: Cache, e: Event, key: Key, now: Time)
    requires e.at <= now && (e.Set? ==> e.swept <= now && CacheKey(e.req) != key)
    requires key in c ==> now < c[key].expiresAt
    ensures key in Apply(o, c, e) <==> key in c && !(e.Set? && Overflows(o, c, e.swept))
    ensures key in Apply(o, c, e) ==> Apply(o, c, e)[key] == c[key]
  {
    if e.Set? {
      UnexpiredAreFewer(c, e.swept);
    }
  }

  lemma {:induction false} UnexpiredEntryIsKept(o: Options, es: seq<Event>, key: Key, now: Time)
    requires ClockedBefore(es, now) && SweptBefore(es, now)
    requires LastSet(es, key).Some? && now < LastSet(es, key).value.1 + o.ttl
    ensures key in Run(o, es) <==> !ResetSince(o, es, key)
    ensures key in Run(o, es) ==> Run(o, es)[key] == Entry(LastSet(es, key).value.0, LastSet(es, key).value.1 + o.ttl)
  {
    var es', e := es[..|es| - 1], es[|es| - 1];
    assert e in es;
    if e.Get? || CacheKey(e.req) != key {
      UnexpiredEntryIsKept(o, es', key, now);
      OtherEventKeeps(o, Run(o, es'), e, key, now);
    }
  }

  /**
    Conversely, a response whose TTL has not passed is found again if and only if no store
    since then found the cache full of unexpired entries. A store under a key that is
    cached already counts too, although it needs no room.
  */
  lemma FreshIsFoundUnlessReset(o: Options, es: seq<Event>, key: Key, now: Time)
    requires ClockedBefore(es, now) && SweptBefore(es, now)
    requires LastSet(es, key).Some? && now < LastSet(es, key).value.1 + o.ttl
    ensures Lookup(Run(o, es), key, now).1 ==
      if ResetSince(o, es, key) then None else Some(LastSet(es, key).value.0)
  {
    UnexpiredEntryIsKept(o, es, key, now);
  }

  /** Two responses fit, and storing the second one again loses the first. */
  lemma OverwritingForgets(a: Request, b: Request, resp: Response)
    requires CacheKey(a) != CacheKey(b)
    ensures var o, es := Options(10, 2), [Set(a, resp, 0, 0), Set(b, resp, 0, 0), Set(b, resp, 0, 0)];
      && Lookup(Run(o, es[..2]), CacheKey(a), 0).1 == Some(resp)
      && Lookup(Run(o, es), CacheKey(a), 0).1 == None
  {
    var o, es := Options(10, 2), [Set(a, resp, 0, 0), Set(b, resp, 0, 0), Set(b, resp, 0, 0)];
    var one := map[CacheKey(a) := Entry(resp, 10)];
    var two := one[CacheKey(b) := Entry(resp, 10)];
    assert es[..3] == es && es[..2][..1] == es[..1] && es[..1][..0] == [];
    assert Run(o, es[..1]) == one;
    assert Run(o, es[..2]) == two;
    assert two.Keys == {CacheKey(a), CacheKey(b)} && |two| == |two.Keys| == 2;
    assert WithoutExpired(two, 0) == two;
    assert Run(o, es) == Apply(o, two, es[2]);
  }

  /** The keys ever stored. */
  ghost function KeysStored(es: seq<Event>): set<Key> {
    if es == [] then {} else
      KeysStored(es[..|es| - 1]) + if es[|es| - 1].Set? then {CacheKey(es[|es| - 1].req)} else {}
  }

  lemma {:induction false} CachedKeysWereStored(o: Options, es: seq<Event>)
    ensures Run(o, es).Keys <= KeysStored(es)
  {
    if es == [] {
    } else {
      CachedKeysWereStored(o, es[..|es| - 1]);
    }
  }

  /** In particular, it is found again while fewer than `maxEntries` keys were ever stored. */
  lemma {:induction false} FreshResponsesAreKept(o: Options, es: seq<Event>, key: Key, now: Time)
    requires |KeysStored(es)| < o.maxEntries && ClockedBefore(es, now)
    requires LastSet(es, key).Some? && now < LastSet(es, key).value.1 + o.ttl
    ensures Lookup(Run(o, es), key, now).1 == Some(LastSet(es, key).value.0)
  {
    var es', e := es[..|es| - 1], es[|es| - 1];
    assert e in es;
    Smaller(KeysStored(es'), KeysStored(es));
    CachedKeysWereStored(o, es');
    Smaller(Run(o, es').Keys, KeysStored(es'));
    if e.Get? || CacheKey(e.req) != key {
      FreshResponsesAreKept(o, es', key, now);
    }
  }

  lemma Smaller<T>(a: set<T>, b: set<T>)
    requires a <= b
    ensures |a| <= |b|
  {
    assert b == a + (b - a);
  }

  // ---------------------------------------------------------------------------------
  // Transparency
  // ---------------------------------------------------------------------------------

  /** A request without the filters that are applied to merged results only. */
  ghost predicate Stripped(r: Request) {
    r.includeDomains == [] && r.excludeDomains == [] && r.maxPerHost == 0
  }

  /** Every store in the run is what `inner` answers to the stripped request it stores for. */
  ghost predicate StoresAnswersOf<E>(es: seq<Event>, inner: Request -> Result<Response, E>) {
    forall e <- es :: e.Set? ==> Stripped(e.req) && inner(e.req) == Ok(e.resp)
  }

  lemma {:induction false} LastSetIsAnswer<E>(es: seq<Event>, inner: Request -> Result<Response, E>, req: Request)
    requires StoresAnswersOf(es, inner) && Stripped(req) && LastSet(es, CacheKey(req)).Some?
    ensures inner(req) == Ok(LastSet(es, CacheKey(req)).value.0)
  {
    var e := es[|es| - 1];
    assert e in es;
    if e.Set? && CacheKey(e.req) == CacheKey(req) {
      assert e.req == req;
    } else {
      LastSetIsAnswer(es[..|es| - 1], inner, req);
    }
  }

  /**
    If the inner provider's answer depends on the request alone and only stripped requests
    come through, then in every run, with every interleaving of lookups and stores, a hit
    is what the inner provider would have answered.
  */
  lemma {:induction false} HitsAreTransparent<E>(o: Options, es: seq<Event>, inner: Request -> Result<Response, E>,
                                                 req: Request, now: Time)
    requires StoresAnswersOf(es, inner) && Stripped(req)
    requires Lookup(Run(o, es), CacheKey(req), now).1.Some?
    ensures inner(req) == Ok(Lookup(Run(o, es), CacheKey(req), now).1.value)
  {
    HitIsLatestAndFresh(o, es, req, now);
    LastSetIsAnswer(es, inner, req);
  }

  /** Without stripping this fails: two requests that differ in a filter share a key. */
  lemma FiltersMustBeStripped(r: Request, resp: Response, other: Response)
    requires resp != other
    ensures var loose, tight := r.(includeDomains := []), r.(includeDomains := ["go.dev"]);
      var inner: Request -> Result<Response, string> := q => Ok(if q == loose then other else resp);
      var es := [Set(tight, resp, 0, 0)];
      && inner(tight) == Ok(resp)
      && Lookup(Run(Options(1, 1), es), CacheKey(loose), 0).1 == Some(resp)
      && inner(loose) != Ok(resp)
  {
    var loose, tight := r.(includeDomains := []), r.(includeDomains := ["go.dev"]);
    var es := [Set(tight, resp, 0, 0)];
    assert es[..0] == [];
    assert Run(Options(1, 1), es) == Apply(Options(1, 1), map[], es[0]);
    assert tight != loose;
  }

  // ---------------------------------------------------------------------------------
  // The provider object
  // ---------------------------------------------------------------------------------

  /** A response as it is passed around: its lists are shared, mutable slices. */
  datatype Shared = Shared(
    query: string,
    provider: string,
    results: array<Hit>,
    degraded: array<ProviderFailure>)

  function Value(s: Shared): Response
    reads s.results, s.degraded
  {
    Response(s.query, s.provider, s.results[..], s.degraded[..])
  }

  ghost predicate Holds(s: Shared, r: Response)
    reads s.results, s.degraded
  {
    s.query == r.query && s.provider == r.provider && s.results[..] == r.results && s.degraded[..] == r.degraded
  }

  /** `slices.Clone`. */
  method CloneSlice<T>(a: array<T>) returns (b: array<T>)
    ensures fresh(b) && b[..] == a[..]
  {
    b := new T[a.Length](i requires 0 <= i < a.Length reads a => a[i]);
  }

  method CloneResponse(s: Shared) returns (copy: Shared)
    ensures fresh(copy.results) && fresh(copy.degraded)
    ensures Value(copy) == Value(s)
  {
    var results := CloneSlice(s.results);
    var degraded := CloneSlice(s.degraded);
    copy := s.(results := results, degraded := degraded);
  }

  /** A response in slices of its own. */
  method Share(r: Response) returns (s: Shared)
    ensures fresh(s.results) && fresh(s.degraded) && Value(s) == r
  {
    var results := new Hit[|r.results|](i requires 0 <= i < |r.results| => r.results[i]);
    var degraded := new ProviderFailure[|r.degraded|](i requires 0 <= i < |r.degraded| => r.degraded[i]);
    s := Shared(r.query, r.provider, results, degraded);
  }

  datatype CacheEntry = CacheEntry(resp: Shared, expiresAt: Time)

  class CachingProvider {
    const opts: Options
    var entries: map<Key, CacheEntry>
    /** The cached values. */
    ghost var contents: Cache

    /** The slices the cache owns. */
    ghost var slices: set<object>

    ghost predicate Valid()
      reads this, slices
    {
      && this !in slices
      && entries.Keys == contents.Keys
      && forall k <- entries ::
           && entries[k].resp.results in slices
           && entries[k].resp.degraded in slices
           && contents[k].expiresAt == entries[k].expiresAt
           && Holds(entries[k].resp, contents[k].resp)
    }

    constructor (options: Options)
      ensures Valid() && opts == Clamp(options) && contents == map[] && slices == {}
    {
      opts := Clamp(options);
      entries, contents, slices := map[], map[], {};
    }

    method Delete(key: Key)
      requires Valid()
      modifies this
      ensures Valid() && slices == old(slices)
      ensures contents == old(contents) - {key}
    {
      entries, contents := entries - {key}, contents - {key};
    }

    /** Looks a key up. A hit is a private copy. */
    method Get(key: Key, now: Time) returns (r: Option<Shared>)
      requires Valid()
      modifies this
      ensures Valid() && slices == old(slices)
      ensures contents == Lookup(old(contents), key, now).0
      ensures r.Some? ==> fresh(r.value.results) && fresh(r.value.degraded)
      ensures (if r.Some? then Some(Value(r.value)) else None) == Lookup(old(contents), key, now).1
    {
      if key !in entries {
        return None;
      }
      var entry := entries[key];
      if now >= entry.expiresAt {
        Delete(key);
        return None;
      }
      var copy := CloneResponse(entry.resp);
      r := Some(copy);
    }

    /** Removes what has expired. */
    method EvictExpired(now: Time)
      requires Valid()
      modifies this
      ensures Valid() && slices == old(slices)
      ensures contents == WithoutExpired(old(contents), now)
    {
      var keys := entries.Keys;
      ghost var before := contents;
      while keys != {}
        invariant Valid() && slices == old(slices)
        invariant Sweeping(before, contents, keys, now)
        decreases keys
      {
        var k :| k in keys;
        if now >= entries[k].expiresAt {
          SweepDrops(before, contents, keys, now, k);
          Delete(k);
        } else {
          SweepKeeps(before, contents, keys, now, k);
        }
        keys := keys - {k};
      }
      SweepEnds(before, contents, now);
    }

    /** Sweeps a full cache, and resets it when that frees nothing. */
    method MakeRoom(swept: Time)
      requires Valid()
      modifies this
      ensures Valid() && slices == old(slices)
      ensures contents == Room(old(contents), opts.maxEntries, swept)
    {
      assert |entries.Keys| == |contents.Keys|;
      if |entries| >= opts.maxEntries {
        EvictExpired(swept);
        assert |entries.Keys| == |contents.Keys|;
        if |entries| >= opts.maxEntries {
          entries, contents := map[], map[];
        }
      }
    }

    /** Puts an entry in, taking over its slices. */
    method Insert(key: Key, own: Shared, ghost value: Response, expiresAt: Time)
      requires Valid() && Holds(own, value)
      modifies this
      ensures Valid() && slices == old(slices) + {own.results, own.degraded}
      ensures contents == old(contents)[key := Entry(value, expiresAt)]
    {
      entries := entries[key := CacheEntry(own, expiresAt)];
      contents := contents[key := Entry(value, expiresAt)];
      slices := slices + {own.results, own.degraded};
    }

    /** Stores a private copy of `resp`. */
    method Set(key: Key, resp: Shared, swept: Time, now: Time)
      requires Valid()
      modifies this
      ensures Valid() && fresh(slices - old(slices))
      ensures contents == Store(opts, old(contents), key, Value(resp), swept, now)
    {
      hide Room;
      MakeRoom(swept);
      var copy := CloneResponse(resp);
      Insert(key, copy, Value(resp), now + opts.ttl);
    }

    /**
      `Search`, given what the inner provider would answer. It is asked exactly when
      caching is off or the lookup misses; only its successes are stored.
    */
    method Search<E>(req: Request, answer: Result<Shared, E>, looked: Time, swept: Time, stored: Time)
      returns (r: Result<Shared, E>, asked: bool)
      requires Valid()
      modifies this
      ensures Valid() && fresh(slices - old(slices))
      ensures asked <==> opts.ttl <= 0 || Lookup(old(contents), CacheKey(req), looked).1.None?
      ensures asked ==> r == answer
      ensures !asked ==> r.Ok? && fresh(r.value.results) && fresh(r.value.degraded)
                         && Some(Value(r.value)) == Lookup(old(contents), CacheKey(req), looked).1
      ensures opts.ttl <= 0 ==> contents == old(contents)
      ensures opts.ttl > 0 ==>
        var c := Lookup(old(contents), CacheKey(req), looked).0;
        contents == if asked && answer.Ok? then Store(opts, c, CacheKey(req), Value(answer.value), swept, stored) else c
    {
      if opts.ttl <= 0 {
        return answer, true;
      }
      var key := CacheKey(req);
      var hit := Get(key, looked);
      if hit.Some? {
        return Ok(hit.value), false;
      }
      if answer.Ok? {
        Set(key, answer.value, swept, stored);
      }
      r, asked := answer, true;
    }
  }

  /** Nothing outside the cache and the slices it owns can change what it holds. */
  twostate lemma ChangesElsewhere(c: CachingProvider)
    requires old(c.Valid()) && unchanged(c) && unchanged(c.slices)
    ensures c.Valid() && c.contents == old(c.contents)
  {
  }

  /** Whoever holds a response may leave anything in its slices. */
  method Scribble(s: Shared)
    modifies s.results, s.degraded
  {
    modify s.results, s.degraded;
  }

  /**
    Neither the provider that produced a response nor a caller that was handed it can
    change what later callers get, whatever either leaves in the slices it holds.
  */
  method HitsArePrivate(c: CachingProvider, key: Key, resp: Shared, now: Time) returns (second: Option<Shared>)
    requires c.Valid() && c.opts.ttl > 0
    requires resp.results !in c.slices && resp.degraded !in c.slices
    modifies c, resp.results, resp.degraded
    ensures c.Valid()
    ensures second.Some? && Value(second.value) == old(Value(resp))
  {
    ghost var value := Value(resp);
    c.Set(key, resp, now, now);
    ghost var stored := c.contents;
    assert Lookup(stored, key, now) == (stored, Some(value));
    Scribble(resp);
    var first := c.Get(key, now);
    Scribble(first.value);
    second := c.Get(key, now);
  }
}
