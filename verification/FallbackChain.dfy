/**
  Asking providers one after the other. `ask` says what each provider's attempt comes to;
  this module says what a caller gets from a whole chain of attempts.
*/
module FallbackChain {
  import opened Wrappers
  import opened SearchTypes

  type Ask = string -> Result<Response, string>

  datatype SearchError =
    | Invalid(reason: string)
    | ContextEnded(reason: string)
    | AllFailed(failures: seq<ProviderFailure>)

  /** The providers that failed, in order. */
  function Failures(ask: Ask, names: seq<string>): seq<ProviderFailure> {
    if names == [] then [] else
      Failures(ask, names[..|names| - 1]) +
      match ask(names[|names| - 1])
      case Err(e) => [ProviderFailure(names[|names| - 1], e)]
      case Ok(_) => []
  }

  /** The answers of the others, in order. */
  function Answers(ask: Ask, names: seq<string>): seq<Response> {
    if names == [] then [] else
      Answers(ask, names[..|names| - 1]) +
      match ask(names[|names| - 1])
      case Err(_) => []
      case Ok(resp) => [resp]
  }

  predicate Serves(ask: Ask, name: string) {
    ask(name).Ok? && ask(name).value.results != []
  }

  /** The caller's context, as it is found before and after the attempts. */
  datatype Context = Context(before: nat -> Option<string>, after: nat -> Option<string>)

  /** Attempt `i` is reached, but neither serves nor is stopped by the caller. */
  predicate FallsThrough(ask: Ask, ctx: Context, order: seq<string>, i: nat)
    requires i < |order|
  {
    && ctx.before(i).None?
    && !Serves(ask, order[i])
    && (ask(order[i]).Err? ==> ctx.after(i).None?)
  }

  /** `n` is where the chain stops: the first attempt that does not fall through. */
  ghost predicate StopsAt(ask: Ask, ctx: Context, order: seq<string>, n: nat) {
    && n <= |order|
    && (forall i: nat | i < n :: FallsThrough(ask, ctx, order, i))
    && (n < |order| ==> !FallsThrough(ask, ctx, order, n))
  }

  /** What the caller gets when the chain stops at `n`. */
  function ChainResult(ask: Ask, ctx: Context, order: seq<string>, n: nat): Result<Response, SearchError>
    requires 0 < |order| && n <= |order| && (n < |order| ==> !FallsThrough(ask, ctx, order, n))
  {
    var failures := Failures(ask, order[..n]);
    if n == |order| then
      if failures == [] && ask(order[n - 1]).Ok? then Ok(ask(order[n - 1]).value) else Err(AllFailed(failures))
    else if ctx.before(n).Some? then Err(ContextEnded(ctx.before(n).value))
    else if Serves(ask, order[n]) then
      var resp := ask(order[n]).value;
      Ok(resp.(degraded := failures + resp.degraded))
    else Err(ContextEnded(ctx.after(n).value))
  }

  lemma OneMoreFailure(ask: Ask, order: seq<string>, i: nat)
    requires i < |order|
    ensures Failures(ask, order[..i + 1]) == Failures(ask, order[..i]) +
      match ask(order[i])
      case Err(e) => [ProviderFailure(order[i], e)]
      case Ok(_) => []
  {
    assert order[..i + 1][..i] == order[..i];
  }

  lemma {:induction false} NoFailuresMeansAnswers(ask: Ask, names: seq<string>, i: nat)
    requires Failures(ask, names) == [] && i < |names|
    ensures ask(names[i]).Ok?
  {
    if i < |names| - 1 {
      NoFailuresMeansAnswers(ask, names[..|names| - 1], i);
    }
  }

  ghost predicate Uncancelled(ctx: Context) {
    forall i: nat :: ctx.before(i).None? && ctx.after(i).None?
  }

  /** Without cancellation the chain stops at the first provider that serves. */
  lemma ChainStopsAtFirstServing(ask: Ask, ctx: Context, order: seq<string>, n: nat)
    requires Uncancelled(ctx) && StopsAt(ask, ctx, order, n)
    ensures forall i: nat | i < n :: !Serves(ask, order[i])
    ensures n < |order| ==> Serves(ask, order[n])
  {
    forall i: nat | i < n
      ensures !Serves(ask, order[i])
    {
      assert FallsThrough(ask, ctx, order, i);
    }
  }

  /** Then the caller gets what that provider serves, and the failures before it, in order, before its own. */
  lemma ServedWithFailuresBefore(ask: Ask, ctx: Context, order: seq<string>, n: nat)
    requires Uncancelled(ctx) && StopsAt(ask, ctx, order, n) && n < |order|
    ensures ChainResult(ask, ctx, order, n).Ok?
    ensures var served, own := ChainResult(ask, ctx, order, n).value, ask(order[n]).value;
      && served.results == own.results != []
      && served.query == own.query && served.provider == own.provider
      && Failures(ask, order[..n]) <= served.degraded
      && served.degraded[|Failures(ask, order[..n])|..] == own.degraded
  {
    ChainStopsAtFirstServing(ask, ctx, order, n);
  }

  /**
    If nobody serves, the caller gets the last empty answer when all providers answered,
    and otherwise an error that joins exactly the failures.
  */
  lemma ExhaustedChain(ask: Ask, ctx: Context, order: seq<string>)
    requires order != [] && StopsAt(ask, ctx, order, |order|)
    ensures match ChainResult(ask, ctx, order, |order|)
      case Ok(resp) =>
        && resp.results == [] && (forall i: nat | i < |order| :: ask(order[i]).Ok?)
        && ask(order[|order| - 1]) == Ok(resp)
      case Err(e) => e == AllFailed(Failures(ask, order)) && Failures(ask, order) != []
  {
    assert order[..|order|] == order;
    assert FallsThrough(ask, ctx, order, |order| - 1);
    if Failures(ask, order) == [] {
      forall i: nat | i < |order|
        ensures ask(order[i]).Ok?
      {
        NoFailuresMeansAnswers(ask, order, i);
      }
    }
  }

  /**
    A caller who has given up stops the chain: nobody is asked once the context has ended,
    a failure is not followed by another attempt if it has ended by then, and the caller
    gets the context's error.
  */
  lemma CancelledChain(ask: Ask, ctx: Context, order: seq<string>, n: nat)
    requires order != [] && StopsAt(ask, ctx, order, n)
    ensures forall i: nat | i < n :: ctx.before(i).None? && (ask(order[i]).Err? ==> ctx.after(i).None?)
    ensures n < |order| && ctx.before(n).Some? ==>
      ChainResult(ask, ctx, order, n) == Err(ContextEnded(ctx.before(n).value))
    ensures n < |order| && ctx.before(n).None? && !Serves(ask, order[n]) ==>
      && ask(order[n]).Err? && ctx.after(n).Some?
      && ChainResult(ask, ctx, order, n) == Err(ContextEnded(ctx.after(n).value))
  {
    forall i: nat | i < n
      ensures ctx.before(i).None? && (ask(order[i]).Err? ==> ctx.after(i).None?)
    {
      assert FallsThrough(ask, ctx, order, i);
    }
  }

  // ---------------------------------------------------------------------------------
  // Only the outcomes matter
  // ---------------------------------------------------------------------------------

  ghost predicate Agree(a: Ask, b: Ask) {
    forall name :: a(name) == b(name)
  }

  lemma {:induction false} SameFailures(a: Ask, b: Ask, names: seq<string>)
    requires Agree(a, b)
    ensures Failures(a, names) == Failures(b, names) && Answers(a, names) == Answers(b, names)
  {
    if names == [] {
    } else {
      SameFailures(a, b, names[..|names| - 1]);
    }
  }

  lemma SameChain(a: Ask, b: Ask, ctx: Context, order: seq<string>, n: nat)
    requires Agree(a, b) && order != [] && StopsAt(a, ctx, order, n)
    ensures StopsAt(b, ctx, order, n) && ChainResult(b, ctx, order, n) == ChainResult(a, ctx, order, n)
  {
    SameFailures(a, b, order[..n]);
    forall i: nat | i < n
      ensures FallsThrough(b, ctx, order, i)
    {
      assert FallsThrough(a, ctx, order, i);
    }
  }
}
