/**
  The search service: one provider's search, the fan-out over all of them, and the
  fallback chain. Providers are functions of the request they receive; each is asked at
  most once per search. The caller's context is observed where the source observes it.
*/
module Service {
  import opened Wrappers
  import opened Numbers
  import opened SearchTypes
  import opened Text
  import opened Sorting
  import opened Fusion
  import opened Selection
  import opened FallbackChain

  type Provider = Request -> Result<Response, string>

  /** The configured providers, and the library functions the service goes through. */
  datatype Setup = Setup(
    providers: map<string, Provider>,
    web: Web,
    hostOf: string -> Option<string>,
    toLower: string -> string,
    normalizeDomains: seq<string> -> Result<seq<string>, string>)

  const ALL_PROVIDERS := "all"

  // ---------------------------------------------------------------------------------
  // One provider
  // ---------------------------------------------------------------------------------

  /** The request a provider sees: a pool of candidates, none of the local filters. */
  function Strip(req: Request): Request {
    req.(count := CandidateCount(req), includeDomains := [], excludeDomains := [], maxPerHost := 0)
  }

  /** What comes of an answer: relabelled, cleaned, deduplicated and cut to the pool size. */
  function Settle(s: Setup, req: Request, answer: Result<Response, string>): Result<Response, string> {
    match answer
    case Err(e) => Err(e)
    case Ok(resp) =>
      var labelled := resp.(query := req.query, provider := req.provider);
      Ok(labelled.(results := Fuse(s.web, [labelled], CandidateCount(req))))
  }

  function SearchOneResult(s: Setup, req: Request): Result<Response, string>
    requires req.provider in s.providers
  {
    Settle(s, req, s.providers[req.provider](Strip(req)))
  }

  /** `searchOne`. */
  method SearchOne(s: Setup, req: Request) returns (r: Result<Response, string>)
    requires req.provider in s.providers
    ensures r == SearchOneResult(s, req)
  {
    var attempt := req.(count := CandidateCount(req));
    attempt := attempt.(includeDomains := [], excludeDomains := [], maxPerHost := 0);
    r := s.providers[req.provider](attempt);
    if r.Ok? {
      var resp := r.value.(query := req.query, provider := req.provider);
      var results := FuseResults(s.web, [resp], attempt.count);
      r := Ok(resp.(results := results));
    }
  }

  /** A provider's list leaves `searchOne` settled and no longer than the candidate pool. */
  lemma SearchOneIsSettled(s: Setup, req: Request)
    requires req.provider in s.providers && SearchOneResult(s, req).Ok?
    ensures var resp := SearchOneResult(s, req).value;
      && resp.provider == req.provider && resp.query == req.query
      && Settled(s.web, resp.provider, resp.results)
      && |resp.results| <= CandidateCount(req) <= MAX_RESULT_COUNT
  {
    var resp := s.providers[req.provider](Strip(req)).value.(query := req.query, provider := req.provider);
    FusedIsSettled(s.web, resp, CandidateCount(req));
    CandidateCountBounds(req);
  }

  /**
    It lists the distinct documents of the provider's answer in that order, as many as the
    pool takes, and keeps the failures the answer reports.
  */
  lemma SearchOneKeepsOrder(s: Setup, req: Request)
    requires req.provider in s.providers && SearchOneResult(s, req).Ok?
    ensures s.providers[req.provider](Strip(req)).Ok?
    ensures var answer, resp := s.providers[req.provider](Strip(req)).value, SearchOneResult(s, req).value;
      var ranking := Ranking(Ballot(s.web, req.provider, answer.results));
      && resp.degraded == answer.degraded
      && |resp.results| == Min(CandidateCount(req), |ranking|)
      && forall i | 0 <= i < |resp.results| :: s.web.key(resp.results[i].url) == ranking[i]
  {
    var labelled := s.providers[req.provider](Strip(req)).value.(query := req.query, provider := req.provider);
    FuseOne(s.web, labelled, CandidateCount(req));
    CandidateCountBounds(req);
    FusedHitsAreKeyed(s.web, [labelled], CandidateCount(req));
    OneResponse(s.web, labelled);
  }

  /** Fusing it again with others, each document is scored by its place in that list. */
  lemma SecondFusionUsesTheseRanks(s: Setup, req: Request, i: nat)
    requires req.provider in s.providers && SearchOneResult(s, req).Ok?
    requires i < |SearchOneResult(s, req).value.results|
    ensures var resp := SearchOneResult(s, req).value;
      Vote(Ballot(s.web, resp.provider, resp.results), s.web.key(resp.results[i].url)) == Share(i)
  {
    var resp := SearchOneResult(s, req).value;
    var ballot := Ballot(s.web, resp.provider, resp.results);
    SearchOneIsSettled(s, req);
    SettledBallot(s.web, resp.provider, resp.results);
    assert Stands(s.web, ballot, i, resp.results[i]);
    RankingIsDistinct(ballot);
    IndexOfDistinct(Ranking(ballot), i);
  }

  // ---------------------------------------------------------------------------------
  // Provider names
  // ---------------------------------------------------------------------------------

  /** The order of `sort.Strings`. */
  predicate Below(a: string, b: string) {
    if b == "" then false
    else if a == "" then true
    else a[0] < b[0] || (a[0] == b[0] && Below(a[1..], b[1..]))
  }

  /** `a` and `b` agree up to character `i`, where `a` has the smaller one. */
  ghost predicate DiffersAt(a: string, b: string, i: int) {
    0 <= i < |a| && i < |b| && a[i] < b[i] && forall j | 0 <= j < i :: a[j] == b[j]
  }

  lemma DiffersPastFirst(a: string, b: string)
    requires a != "" && b != "" && a[0] == b[0]
    ensures (exists i :: DiffersAt(a, b, i)) <==> exists i :: DiffersAt(a[1..], b[1..], i)
  {
    forall i | DiffersAt(a, b, i)
      ensures DiffersAt(a[1..], b[1..], i - 1)
    {
      assert a[1..][i - 1] == a[i] && b[1..][i - 1] == b[i];
    }
    forall i | DiffersAt(a[1..], b[1..], i)
      ensures DiffersAt(a, b, i + 1)
    {
      assert forall j | 0 < j <= i + 1 :: a[j] == a[1..][j - 1] && b[j] == b[1..][j - 1];
    }
  }

  lemma PrefixPastFirst(a: string, b: string)
    requires a != "" && b != "" && a[0] == b[0]
    ensures a < b <==> a[1..] < b[1..]
  {
    assert a == [a[0]] + a[1..] && b == [b[0]] + b[1..];
    if a[1..] < b[1..] {
      assert b[..|a|] == [b[0]] + b[1..][..|a[1..]|];
    }
  }

  /** The order is by the first character that differs, and a prefix comes first. */
  lemma {:induction false} BelowIsLexicographic(a: string, b: string)
    ensures Below(a, b) <==> a < b || exists i :: DiffersAt(a, b, i)
  {
    if a == "" || b == "" {
    } else if a[0] == b[0] {
      BelowIsLexicographic(a[1..], b[1..]);
      DiffersPastFirst(a, b);
      PrefixPastFirst(a, b);
    } else if a[0] < b[0] {
      assert DiffersAt(a, b, 0);
    }
  }

  lemma {:induction false} BelowIsTotal(a: string, b: string)
    ensures a == b || Below(a, b) || Below(b, a)
  {
    if a != "" && b != "" && a[0] == b[0] {
      BelowIsTotal(a[1..], b[1..]);
      assert a == [a[0]] + a[1..] && b == [b[0]] + b[1..];
    }
  }

  lemma {:induction false} BelowIsTransitive(a: string, b: string, c: string)
    requires Below(a, b) && Below(b, c)
    ensures Below(a, c)
  {
    if a != "" && a[0] == b[0] == c[0] {
      BelowIsTransitive(a[1..], b[1..], c[1..]);
    }
  }

  ghost predicate Sorted(names: seq<string>) {
    forall i, j | 0 <= i < j < |names| :: Below(names[i], names[j])
  }

  lemma {:induction false} BelowIsStrict(a: string)
    ensures !Below(a, a)
  {
    if a == "" {
    } else {
      BelowIsStrict(a[1..]);
    }
  }

  /** Puts a new name where it belongs. */
  method InsertName(names: seq<string>, name: string) returns (more: seq<string>)
    requires Sorted(names) && name !in names
    ensures Sorted(more) && forall n :: n in more <==> n in names || n == name
  {
    var i := |names|;
    while i > 0 && Below(name, names[i - 1])
      invariant 0 <= i <= |names|
      invariant forall k | i <= k < |names| :: Below(name, names[k])
    {
      i := i - 1;
    }
    forall k | 0 <= k < i
      ensures Below(names[k], name)
    {
      BelowIsTotal(names[i - 1], name);
      assert names[i - 1] in names;
      if k < i - 1 {
        BelowIsTransitive(names[k], names[i - 1], name);
      }
    }
    more := names[..i] + [name] + names[i..];
  }

  /** `ProviderNames`. */
  method ProviderNames(s: Setup) returns (names: seq<string>)
    ensures Sorted(names) && forall name :: name in names <==> name in s.providers
  {
    names := [];
    var left := s.providers.Keys;
    while left != {}
      invariant left <= s.providers.Keys && Sorted(names)
      invariant forall name :: name in names <==> name in s.providers && name !in left
      decreases left
    {
      var name :| name in left;
      names := InsertName(names, name);
      left := left - {name};
    }
  }

  // ---------------------------------------------------------------------------------
  // Fan-out
  // ---------------------------------------------------------------------------------

  /** What each provider's own search comes to. */
  ghost function EachAlone(s: Setup, req: Request): Ask {
    name => if name in s.providers then SearchOneResult(s, req.(provider := name)) else Err("unknown provider")
  }

  ghost predicate IsEverybody(s: Setup, names: seq<string>) {
    Sorted(names) && forall name :: name in names <==> name in s.providers
  }

  /** What a fan-out returns. */
  ghost function FanOut(s: Setup, req: Request, ended: Option<string>,
                        names: seq<string>): Result<Response, SearchError> {
    var responses, failures := Answers(EachAlone(s, req), names), Failures(EachAlone(s, req), names);
    if ended.Some? then Err(ContextEnded(ended.value))
    else if responses == [] then Err(AllFailed(failures))
    else Ok(Response(req.query, ALL_PROVIDERS, Select(s.hostOf, req, Fuse(s.web, responses, 0)), failures))
  }

  /** What a provider's own search comes to. */
  ghost function Own(s: Setup, req: Request, name: string): Result<Response, string>
    requires name in s.providers
  {
    SearchOneResult(s, req.(provider := name))
  }

  ghost predicate HasFailed(s: Setup, req: Request, f: ProviderFailure) {
    f.provider in s.providers && Own(s, req, f.provider) == Err(f.error)
  }

  /** Exactly the failures of the providers' own searches, by name. */
  ghost predicate AreFailures(s: Setup, req: Request, failures: seq<ProviderFailure>) {
    && (forall f :: f in failures <==> HasFailed(s, req, f))
    && FailuresSorted(failures)
  }

  /** Exactly the answers of the providers' own searches, by name. */
  ghost predicate AreAnswers(s: Setup, req: Request, responses: seq<Response>) {
    && (forall resp :: resp in responses <==> resp.provider in s.providers && Own(s, req, resp.provider) == Ok(resp))
    && AnswersSorted(responses)
  }

  /**
    What a fan-out may return: the error of a context that has ended; the failures, if
    everybody's own search failed; else a fair selection from the fused answers, with the
    failures beside it.
  */
  ghost predicate IsFannedOut(s: Setup, req: Request, ended: Option<string>, r: Result<Response, SearchError>) {
    match ended
    case Some(e) => r == Err(ContextEnded(e))
    case None =>
      if forall name <- s.providers :: Own(s, req, name).Err?
      then r.Err? && r.error.AllFailed? && AreFailures(s, req, r.error.failures)
      else
        && r.Ok? && r.value.query == req.query && r.value.provider == ALL_PROVIDERS
        && AreFailures(s, req, r.value.degraded)
        && exists responses ::
             AreAnswers(s, req, responses) && IsSelectionOf(s.hostOf, req, Fuse(s.web, responses, 0), r.value.results)
  }

  /** Whose failures, and whose answers where each carries its provider's name. */
  lemma {:induction false} CollectedFrom(ask: Ask, names: seq<string>)
    requires forall name <- names :: ask(name).Ok? ==> ask(name).value.provider == name
    ensures forall f :: f in Failures(ask, names) <==> f.provider in names && ask(f.provider) == Err(f.error)
    ensures forall resp :: resp in Answers(ask, names) <==> resp.provider in names && ask(resp.provider) == Ok(resp)
  {
    if names == [] {
    } else {
      var rest, name := names[..|names| - 1], names[|names| - 1];
      CollectedFrom(ask, rest);
      CollectedLast(ask, rest, name);
      assert names == rest + [name];
    }
  }

  ghost predicate FailuresSorted(failures: seq<ProviderFailure>) {
    forall i, j | 0 <= i < j < |failures| :: Below(failures[i].provider, failures[j].provider)
  }

  ghost predicate AnswersSorted(responses: seq<Response>) {
    forall i, j | 0 <= i < j < |responses| :: Below(responses[i].provider, responses[j].provider)
  }

  lemma OneMoreFailureSorted(failures: seq<ProviderFailure>, f: ProviderFailure)
    requires FailuresSorted(failures) && forall x <- failures :: Below(x.provider, f.provider)
    ensures FailuresSorted(failures + [f])
  {
  }

  lemma OneMoreAnswerSorted(responses: seq<Response>, resp: Response)
    requires AnswersSorted(responses) && forall x <- responses :: Below(x.provider, resp.provider)
    ensures AnswersSorted(responses + [resp])
  {
  }

  /** Both are in the order of the names. */
  lemma {:induction false} CollectedInOrder(ask: Ask, names: seq<string>)
    requires Sorted(names) && forall name <- names :: ask(name).Ok? ==> ask(name).value.provider == name
    ensures FailuresSorted(Failures(ask, names)) && AnswersSorted(Answers(ask, names))
  {
    if names == [] {
    } else {
      var rest, name := names[..|names| - 1], names[|names| - 1];
      assert names == rest + [name];
      CollectedInOrder(ask, rest);
      CollectedFrom(ask, rest);
      assert forall earlier <- rest :: Below(earlier, name);
      hide Failures, Answers, Below, FailuresSorted, AnswersSorted;
      CollectedLast(ask, rest, name);
      if ask(name).Ok? {
        OneMoreAnswerSorted(Answers(ask, rest), ask(name).value);
      } else {
        OneMoreFailureSorted(Failures(ask, rest), ProviderFailure(name, ask(name).error));
      }
    }
  }

  lemma CollectedLast(ask: Ask, rest: seq<string>, name: string)
    ensures Failures(ask, rest + [name])
         == if ask(name).Ok? then Failures(ask, rest)
            else Failures(ask, rest) + [ProviderFailure(name, ask(name).error)]
    ensures Answers(ask, rest + [name])
         == if ask(name).Ok? then Answers(ask, rest) + [ask(name).value] else Answers(ask, rest)
  {
    assert (rest + [name])[..|rest|] == rest;
  }

  /** Collected over everybody, they are the failures and answers of the providers' own searches. */
  lemma CollectedFromEverybody(s: Setup, req: Request, names: seq<string>)
    requires IsEverybody(s, names)
    ensures AreFailures(s, req, Failures(EachAlone(s, req), names))
    ensures AreAnswers(s, req, Answers(EachAlone(s, req), names))
  {
    hide SearchOneResult;
    var ask := EachAlone(s, req);
    forall name <- names
      ensures ask(name) == Own(s, req, name)
      ensures ask(name).Ok? ==> ask(name).value.provider == name
    {
      if ask(name).Ok? {
        SearchOneIsSettled(s, req.(provider := name));
      }
    }
    CollectedFrom(ask, names);
    CollectedInOrder(ask, names);
  }

  /** A fan-out returns what it may. */
  lemma FanOutMeans(s: Setup, req: Request, ended: Option<string>, names: seq<string>)
    requires IsEverybody(s, names)
    ensures IsFannedOut(s, req, ended, FanOut(s, req, ended, names))
  {
    hide SearchOneResult, Fuse, IsFair;
    if ended.None? {
      var responses := Answers(EachAlone(s, req), names);
      CollectedFromEverybody(s, req, names);
      SelectIsFair(s.hostOf, req, Fuse(s.web, responses, 0));
      forall name <- s.providers
        ensures Own(s, req, name).Ok? ==> Own(s, req, name).value in responses
      {
        if Own(s, req, name).Ok? {
          SearchOneIsSettled(s, req.(provider := name));
        }
      }
      assert responses != [] ==> responses[0] in responses;
    }
  }

  /** The collecting loop of `searchAll`. */
  method Collect(s: Setup, req: Request, names: seq<string>)
    returns (responses: seq<Response>, degraded: seq<ProviderFailure>)
    requires forall name <- names :: name in s.providers
    ensures responses == Answers(EachAlone(s, req), names) && degraded == Failures(EachAlone(s, req), names)
  {
    ghost var ask := EachAlone(s, req);
    responses, degraded := [], [];
    for i := 0 to |names|
      invariant responses == Answers(ask, names[..i]) && degraded == Failures(ask, names[..i])
    {
      assert names[..i + 1][..i] == names[..i];
      var outcome := SearchOne(s, req.(provider := names[i]));
      assert outcome == ask(names[i]);
      match outcome {
        case Err(e) => degraded := degraded + [ProviderFailure(names[i], e)];
        case Ok(resp) => responses := responses + [resp];
      }
    }
    assert names[..|names|] == names;
  }

  /**
    `searchAll`: every provider is asked once; the fused answers are filtered and cut; the
    failures are reported beside them, and become the error when nobody answered.
  */
  method SearchAll(s: Setup, req: Request, ended: Option<string>)
    returns (r: Result<Response, SearchError>)
    ensures exists names :: IsEverybody(s, names) && r == FanOut(s, req, ended, names)
    ensures IsFannedOut(s, req, ended, r)
  {
    hide IsFannedOut, IsSelectionOf, Fuse;
    var names := ProviderNames(s);
    var responses, degraded := Collect(s, req, names);
    assert IsEverybody(s, names);
    FanOutMeans(s, req, ended, names);
    if ended.Some? {
      return Err(ContextEnded(ended.value));
    }
    if |responses| == 0 {
      return Err(AllFailed(degraded));
    }
    var fused := FuseResults(s.web, responses, 0);
    var merged := SelectResults(s.hostOf, fused, req);
    r := Ok(Response(req.query, ALL_PROVIDERS, merged, degraded));
  }

  // ---------------------------------------------------------------------------------
  // Fallback
  // ---------------------------------------------------------------------------------

  /** What the chain makes of a provider: its settled answer with the selection applied. */
  ghost function EachSelected(s: Setup, req: Request): Ask {
    name =>
      match EachAlone(s, req)(name)
      case Err(e) => Err(e)
      case Ok(resp) => Ok(resp.(provider := name, results := Select(s.hostOf, req, resp.results)))
  }

  /** What one attempt of the chain may come to: a fair selection from the provider's own answer, or its failure. */
  ghost predicate IsAttempt(s: Setup, req: Request, name: string, r: Result<Response, string>)
    requires name in s.providers
  {
    match Own(s, req, name)
    case Err(e) => r == Err(e)
    case Ok(resp) =>
      && r.Ok? && r.value.provider == name && r.value.query == resp.query && r.value.degraded == resp.degraded
      && IsSelectionOf(s.hostOf, req, resp.results, r.value.results)
  }

  lemma AttemptMeans(s: Setup, req: Request, name: string)
    requires name in s.providers
    ensures IsAttempt(s, req, name, EachSelected(s, req)(name))
  {
    hide IsSelectionOf;
    assert EachAlone(s, req)(name) == Own(s, req, name);
    if Own(s, req, name).Ok? {
      SelectIsFair(s.hostOf, req, Own(s, req, name).value.results);
    }
  }

  /** One attempt of the chain. */
  method AttemptOne(s: Setup, req: Request, name: string) returns (r: Result<Response, string>)
    requires name in s.providers
    ensures r == EachSelected(s, req)(name)
    ensures IsAttempt(s, req, name, r)
  {
    hide IsAttempt, IsSelectionOf;
    AttemptMeans(s, req, name);
    var answer := SearchOne(s, req.(provider := name));
    assert answer == EachAlone(s, req)(name);
    match answer {
      case Err(_) => r := answer;
      case Ok(resp) =>
        var selected := SelectResults(s.hostOf, resp.results, req);
        r := Ok(resp.(provider := name, results := selected));
    }
  }

  /** The loop of `Search` over the providers. */
  method Fallback(s: Setup, req: Request, ctx: Context, order: seq<string>, ghost ask: Ask)
    returns (r: Result<Response, SearchError>)
    requires 0 < |order| && forall name <- order :: name in s.providers
    requires ask == EachSelected(s, req)
    ensures exists n: nat :: StopsAt(ask, ctx, order, n) && r == ChainResult(ask, ctx, order, n)
  {
    hide EachSelected, IsAttempt;
    var failed: seq<ProviderFailure> := [];
    var empty: Option<Response> := None;
    for i := 0 to |order|
      invariant forall k: nat | k < i :: FallsThrough(ask, ctx, order, k)
      invariant failed == Failures(ask, order[..i])
      invariant i > 0 && failed == [] ==> ask(order[i - 1]).Ok? && empty == Some(ask(order[i - 1]).value)
    {
      OneMoreFailure(ask, order, i);
      assert !FallsThrough(ask, ctx, order, i) ==> StopsAt(ask, ctx, order, i);
      var ended := ctx.before(i);
      if ended.Some? {
        return Err(ContextEnded(ended.value));
      }
      var answer := AttemptOne(s, req, order[i]);
      if answer.Ok? {
        if |answer.value.results| == 0 {
          empty := Some(answer.value);
          continue;
        }
        return Ok(answer.value.(degraded := failed + answer.value.degraded));
      }
      failed := failed + [ProviderFailure(order[i], answer.error)];
      ended := ctx.after(i);
      if ended.Some? {
        return Err(ContextEnded(ended.value));
      }
    }
    assert order[..|order|] == order && StopsAt(ask, ctx, order, |order|);
    if empty.Some? && failed == [] {
      return Ok(empty.value);
    }
    r := Err(AllFailed(failed));
  }

  /** The requested provider first, then the others by name; everybody once. */
  ghost predicate IsAttemptOrder(s: Setup, primary: string, order: seq<string>) {
    && order != [] && order[0] == primary && Sorted(order[1..])
    && (forall name :: name in order <==> name in s.providers)
    && (forall i, j | 0 <= i < j < |order| :: order[i] != order[j])
  }

  method AttemptOrder(s: Setup, primary: string) returns (order: seq<string>)
    requires primary in s.providers
    ensures IsAttemptOrder(s, primary, order)
  {
    var names := ProviderNames(s);
    order := [primary];
    for i := 0 to |names|
      invariant order != [] && order[0] == primary && Sorted(order[1..])
      invariant forall k | 1 <= k < |order| :: order[k] in names[..i] && order[k] != primary
      invariant forall k | 0 <= k < i :: names[k] in order
    {
      if names[i] != primary {
        forall k | 1 <= k < |order|
          ensures Below(order[k], names[i])
        {
          var a :| 0 <= a < |names[..i]| && names[..i][a] == order[k];
        }
        assert (order + [names[i]])[1..] == order[1..] + [names[i]];
        order := order + [names[i]];
      }
      assert names[..i + 1] == names[..i] + [names[i]];
    }
    assert names[..|names|] == names;
    forall i, j | 0 <= i < j < |order|
      ensures order[i] != order[j]
    {
      if i > 0 {
        assert Below(order[1..][i - 1], order[1..][j - 1]);
        BelowIsStrict(order[i]);
      }
    }
  }

  // ---------------------------------------------------------------------------------
  // The whole search
  // ---------------------------------------------------------------------------------

  /** Validation and defaults. */
  function Prepare(s: Setup, req: Request): Result<Request, string> {
    var query, provider := TrimSpace(req.query), s.toLower(TrimSpace(req.provider));
    if query == "" then Err("query is required")
    else if req.count < 0 || req.maxPerHost < 0 then Err("count and max_per_host must not be negative")
    else
      match s.normalizeDomains(req.includeDomains)
      case Err(e) => Err(e)
      case Ok(included) =>
        match s.normalizeDomains(req.excludeDomains)
        case Err(e) => Err(e)
        case Ok(excluded) =>
          if provider == "" && |s.providers| == 0 then Err("no providers configured")
          else if provider != "" && provider != ALL_PROVIDERS && provider !in s.providers then Err("unknown provider")
          else Ok(req.(
            query := query,
            provider := if provider == "" then ALL_PROVIDERS else provider,
            count := Min(if req.count == 0 then 10 else req.count, MAX_RESULT_COUNT),
            includeDomains := included,
            excludeDomains := excluded))
  }

  /** A provider name the service knows: a configured one, the fan-out, or none where there is any. */
  predicate IsKnown(s: Setup, provider: string) {
    (provider == "" && |s.providers| > 0) || provider == ALL_PROVIDERS || provider in s.providers
  }

  /**
    Exactly these requests are accepted, and what goes on is a trimmed query to a known
    provider for between one and fifty results.
  */
  lemma PrepareDecides(s: Setup, req: Request)
    ensures Prepare(s, req).Ok? <==>
      && TrimSpace(req.query) != "" && req.count >= 0 && req.maxPerHost >= 0
      && s.normalizeDomains(req.includeDomains).Ok? && s.normalizeDomains(req.excludeDomains).Ok?
      && IsKnown(s, s.toLower(TrimSpace(req.provider)))
    ensures Prepare(s, req).Ok? ==>
      var p := Prepare(s, req).value;
      && TrimSpace(p.query) == p.query == TrimSpace(req.query) != ""
      && (p.provider == "all" || p.provider in s.providers)
      && (s.toLower(TrimSpace(req.provider)) == "" ==> p.provider == "all")
      && (s.toLower(TrimSpace(req.provider)) != "" ==> p.provider == s.toLower(TrimSpace(req.provider)))
      && (req.count == 0 ==> p.count == 10) && (req.count > MAX_RESULT_COUNT ==> p.count == MAX_RESULT_COUNT)
      && Ok(p.includeDomains) == s.normalizeDomains(req.includeDomains)
      && Ok(p.excludeDomains) == s.normalizeDomains(req.excludeDomains)
      && (p.country, p.language, p.safeSearch, p.freshness, p.extraHeaders)
         == (req.country, req.language, req.safeSearch, req.freshness, req.extraHeaders)
      && 1 <= p.count <= MAX_RESULT_COUNT
      && (1 <= req.count <= MAX_RESULT_COUNT ==> p.count == req.count)
      && p.maxPerHost == req.maxPerHost >= 0
  {
    TrimSpaceIdempotent(req.query);
  }

  /** What a caller gets for an accepted request to one provider: a chain in attempt order. */
  ghost predicate IsChained(s: Setup, p: Request, ctx: Context, order: seq<string>, n: nat,
                            r: Result<Response, SearchError>)
    requires p.provider in s.providers
  {
    && IsAttemptOrder(s, p.provider, order)
    && StopsAt(EachSelected(s, p), ctx, order, n)
    && r == ChainResult(EachSelected(s, p), ctx, order, n)
  }

  /** What a caller may get from `Search`. */
  ghost predicate IsAnswer(s: Setup, req: Request, ctx: Context, r: Result<Response, SearchError>) {
    match Prepare(s, req)
    case Err(e) => r == Err(Invalid(e))
    case Ok(p) =>
      if p.provider == ALL_PROVIDERS
      then exists names :: IsEverybody(s, names) && r == FanOut(s, p, ctx.before(0), names)
      else exists order, n :: IsChained(s, p, ctx, order, n, r)
  }

  /** `Search`. */
  method Search(s: Setup, req: Request, ctx: Context) returns (r: Result<Response, SearchError>)
    ensures IsAnswer(s, req, ctx, r)
  {
    match Prepare(s, req) {
      case Err(e) => r := Err(Invalid(e));
      case Ok(p) =>
        if p.provider == ALL_PROVIDERS {
          r := SearchAll(s, p, ctx.before(0));
        } else {
          var order := AttemptOrder(s, p.provider);
          r := Fallback(s, p, ctx, order, EachSelected(s, p));
          ghost var ask := EachSelected(s, p);
          ghost var n: nat :| StopsAt(ask, ctx, order, n) && r == ChainResult(ask, ctx, order, n);
          assert IsChained(s, p, ctx, order, n, r);
        }
    }
  }
}
