/**
  The retry decorator: which failures are tried again, how often, after which delays, and
  what the caller gets in the end. Also the backoff arithmetic, in 64-bit two's complement.
*/
module Retry {
  import opened Wrappers
  import opened Numbers

  /** What `errors.Is` and `errors.As` find in an error's chain. `retryAfter` is the wait a
      rate-limit error carries, if there is one in the chain. */
  datatype Failure = Failure(
    message: string,
    canceled: bool,
    deadline: bool,
    blocked: bool,
    retryAfter: Option<int>)

  predicate IsRetryable(e: Failure) {
    !e.canceled && !e.deadline && !e.blocked
  }

  const MAX_RETRY_AFTER_WAIT := 30_000_000_000

  datatype Options = Options(maxAttempts: int, baseDelay: int)

  /** What the constructor makes of the options: at least one attempt, a positive delay. */
  function Clamp(o: Options): (r: Options)
    ensures r.maxAttempts >= 1 && r.baseDelay > 0
    ensures o.maxAttempts >= 1 ==> r.maxAttempts == o.maxAttempts
    ensures o.baseDelay > 0 ==> r.baseDelay == o.baseDelay
    ensures o.maxAttempts < 1 ==> r.maxAttempts == 1
    ensures o.baseDelay <= 0 ==> r.baseDelay == 200_000_000
  {
    Options(if o.maxAttempts < 1 then 1 else o.maxAttempts,
            if o.baseDelay <= 0 then 200_000_000 else o.baseDelay)
  }

  // ---------------------------------------------------------------------------------
  // Backoff
  // ---------------------------------------------------------------------------------

  const TWO_63 := 0x8000_0000_0000_0000

  predicate IsInt64(x: int) {
    -TWO_63 <= x < TWO_63
  }

  /** What 64-bit arithmetic leaves of an exact result. */
  function Wrap64(x: int): (r: int)
    ensures IsInt64(r) && (r - x) % (2 * TWO_63) == 0
    ensures IsInt64(x) ==> r == x
  {
    (x + TWO_63) % (2 * TWO_63) - TWO_63
  }

  function Pow2(n: nat): (r: nat)
    ensures r > 0
  {
    if n == 0 then 1 else 2 * Pow2(n - 1)
  }

  /** `j` doublings are the most, up to `attempt`, that leave `base` below 2^63. */
  ghost predicate LastSafeDoubling(base: int, attempt: nat, j: nat) {
    && j <= attempt
    && base * Pow2(j) < TWO_63
    && (j < attempt ==> base * Pow2(j + 1) >= TWO_63)
  }

  /** More doublings would overflow too, so the number of safe ones is unique. */
  lemma LastSafeDoublingIsLargest(base: int, attempt: nat, j: nat, k: nat)
    requires base > 0 && LastSafeDoubling(base, attempt, j) && k <= attempt
    ensures base * Pow2(k) < TWO_63 <==> k <= j
  {
    if k <= j {
      Pow2Monotone(k, j);
      assert base * Pow2(k) <= base * Pow2(j);
    } else {
      Pow2Monotone(j + 1, k);
      assert base * Pow2(j + 1) <= base * Pow2(k);
    }
  }

  lemma Pow2Monotone(a: nat, b: nat)
    requires a <= b
    ensures Pow2(a) <= Pow2(b)
  {
    if a < b {
      Pow2Monotone(a, b - 1);
    }
  }

  /**
    The loop of `backoff`, before jitter. The test `next < d` stops it at exactly the
    doubling that no longer fits into 64 bits, never earlier and never later.
  */
  method Backoff(base: int, attempt: nat) returns (d: int, ghost j: nat)
    requires 0 < base < TWO_63
    ensures LastSafeDoubling(base, attempt, j) && d == base * Pow2(j)
    ensures base <= d < TWO_63
  {
    d, j := base, 0;
    for i := 0 to attempt
      invariant j == i && base <= d < TWO_63 && d == base * Pow2(j)
    {
      var next := Wrap64(d * 2);
      assert base * Pow2(j + 1) == (base * Pow2(j)) * 2;
      if next < d {
        break;
      }
      d := next;
      j := j + 1;
    }
  }

  /** A random source: `draw(n)` is some number in [0, n), for every positive 64-bit `n`. */
  ghost predicate Fair(draw: int -> int) {
    forall n :: 0 < n < TWO_63 ==> 0 <= draw(n) < n
  }

  /** What `fullJitter` makes of a delay, without regard to the width of its arithmetic. */
  function Jittered(d: int, draw: int -> int): int {
    if d <= 0 then 0 else d / 2 + draw(d - d / 2 + 1)
  }

  /** `fullJitter`: nothing wraps, and the source is only asked for numbers it can draw. */
  method FullJitter(d: int, draw: int -> int) returns (r: int)
    requires IsInt64(d) && Fair(draw)
    ensures r == Jittered(d, draw)
    ensures d <= 0 ==> r == 0
    ensures d > 0 ==> d / 2 <= r <= d
  {
    if d <= 0 {
      return 0;
    }
    var half := d / 2;
    var n := Wrap64(Wrap64(d - half) + 1);
    r := Wrap64(half + draw(n));
  }

  /** The source that always draws `x`, where it may. */
  function Always(x: int): int -> int {
    n => if 0 <= x < n then x else 0
  }

  /** The delays that can come out are exactly those from half of `d` to `d`. */
  lemma JitterCoversItsRange(d: int, r: int)
    requires 0 < d < TWO_63
    ensures d / 2 <= r <= d <==> exists draw :: Fair(draw) && Jittered(d, draw) == r
  {
    if d / 2 <= r <= d {
      assert Fair(Always(r - d / 2)) && Jittered(d, Always(r - d / 2)) == r;
    }
  }

  // ---------------------------------------------------------------------------------
  // The retry loop
  // ---------------------------------------------------------------------------------

  /**
    Everything the loop meets, by attempt: the state of the caller's context before the
    attempt, the inner provider's answer, what came of the wait after it, and the random
    source, of which `draw(i, n)` is some number in [0, n).
  */
  datatype World<!T> = World(
    contextBefore: nat -> Option<Failure>,
    answer: nat -> Result<T, Failure>,
    waitCut: nat -> Option<Failure>,
    draw: (nat, int) -> int)

  ghost predicate FairDraws<T(!new)>(w: World<T>) {
    forall i: nat, n :: 0 < n < TWO_63 ==> 0 <= w.draw(i, n) < n
  }

  /** Attempt `i` fails in a way that lets the loop go on to attempt `i + 1`. */
  ghost predicate GoesOn<T(!new)>(w: World<T>, maxAttempts: nat, i: nat) {
    && w.contextBefore(i).None?
    && w.answer(i).Err?
    && IsRetryable(w.answer(i).error)
    && i + 1 < maxAttempts
    && w.waitCut(i).None?
  }

  /** The wait after failed attempt `i`: the server's advice, capped, else jittered backoff. */
  ghost predicate DelayAfter<T>(w: World<T>, base: int, i: nat, delay: int)
    requires w.answer(i).Err?
  {
    var advice := w.answer(i).error.retryAfter;
    if advice.Some? && advice.value > 0 then
      delay == Min(advice.value, MAX_RETRY_AFTER_WAIT)
    else
      exists j :: LastSafeDoubling(base, i, j) && base * Pow2(j) / 2 <= delay <= base * Pow2(j)
  }

  /** How the loop ends when attempt `n` is the first that does not go on. */
  function Verdict<T>(w: World<T>, n: nat): Result<T, Failure>
    requires n > 0 ==> w.answer(n - 1).Err?
  {
    match w.contextBefore(n)
    case None => w.answer(n)
    case Some(e) => Err(if n > 0 then w.answer(n - 1).error else e)
  }

  /** The first attempt, from `i` on, that does not go on. */
  ghost function LastAttempt<T(!new)>(w: World<T>, maxAttempts: nat, i: nat): (n: nat)
    requires i < maxAttempts
    ensures i <= n < maxAttempts && !GoesOn(w, maxAttempts, n)
    ensures n > i ==> GoesOn(w, maxAttempts, n - 1)
    decreases maxAttempts - i
  {
    if GoesOn(w, maxAttempts, i) then LastAttempt(w, maxAttempts, i + 1) else i
  }

  /** What the caller gets, and how often the inner provider is called for it. */
  ghost function Answer<T(!new)>(w: World<T>, maxAttempts: nat): Result<T, Failure>
    requires maxAttempts >= 1
  {
    Verdict(w, LastAttempt(w, maxAttempts, 0))
  }

  ghost function Calls<T(!new)>(w: World<T>, maxAttempts: nat): (calls: nat)
    requires maxAttempts >= 1
    ensures calls <= maxAttempts
  {
    var n := LastAttempt(w, maxAttempts, 0);
    n + if w.contextBefore(n).None? then 1 else 0
  }

  lemma {:induction false} LastAttemptIsFirstStop<T(!new)>(w: World<T>, maxAttempts: nat, i: nat, n: nat)
    requires i <= n < maxAttempts && !GoesOn(w, maxAttempts, n)
    requires forall k: nat :: i <= k < n ==> GoesOn(w, maxAttempts, k)
    ensures LastAttempt(w, maxAttempts, i) == n
    decreases n - i
  {
    if i < n {
      LastAttemptIsFirstStop(w, maxAttempts, i + 1, n);
    }
  }

  /** Advice of up to thirty seconds is followed; more is cut to that; and without advice the wait is random. */
  lemma DelayMeans<T>(w: World<T>, base: int, i: nat, delay: int)
    requires base > 0 && w.answer(i).Err? && DelayAfter(w, base, i, delay)
    ensures var advice := w.answer(i).error.retryAfter;
      && (advice.Some? && 0 < advice.value <= 30_000_000_000 ==> delay == advice.value)
      && (advice.Some? && advice.value > 30_000_000_000 ==> delay == 30_000_000_000)
      && (advice.None? || advice.value <= 0 ==> base / 2 <= delay < TWO_63)
  {
    if w.answer(i).error.retryAfter.None? || w.answer(i).error.retryAfter.value <= 0 {
      var j :| LastSafeDoubling(base, i, j) && base * Pow2(j) / 2 <= delay <= base * Pow2(j);
      AtLeast(base, Pow2(j));
    }
  }

  lemma AtLeast(base: int, factor: nat)
    requires base > 0 && factor > 0
    ensures base <= base * factor
  {
  }

  function DrawAt<T>(w: World<T>, i: nat): int -> int {
    n => w.draw(i, n)
  }

  /** The delay of the loop: backoff, overridden by the server's advice. */
  method Delay<T(!new)>(w: World<T>, base: int, attempt: nat, e: Failure) returns (delay: int)
    requires 0 < base < TWO_63 && FairDraws(w) && w.answer(attempt) == Err(e)
    ensures DelayAfter(w, base, attempt, delay)
  {
    var d, j := Backoff(base, attempt);
    assert Fair(DrawAt(w, attempt));
    delay := FullJitter(d, DrawAt(w, attempt));
    if e.retryAfter.Some? && e.retryAfter.value > 0 {
      delay := Min(e.retryAfter.value, MAX_RETRY_AFTER_WAIT);
    }
  }

  lemma {:induction false} EarlierAttemptsGoOn<T(!new)>(w: World<T>, maxAttempts: nat, i: nat, k: nat)
    requires i < maxAttempts && i <= k < LastAttempt(w, maxAttempts, i)
    ensures GoesOn(w, maxAttempts, k)
    decreases k - i
  {
    if i == k {
    } else {
      EarlierAttemptsGoOn(w, maxAttempts, i + 1, k);
    }
  }

  /** An attempt whose failure is worth another: transient, and the wait after it was not cut short. */
  ghost predicate IsWorthAnother<T>(w: World<T>, k: nat) {
    && w.contextBefore(k).None? && w.answer(k).Err? && w.waitCut(k).None?
    && var e := w.answer(k).error; !(e.canceled || e.deadline || e.blocked)
  }

  /**
    Exactly which calls are made: call `i` if there are attempts left, the context has not
    ended, and every attempt before was worth another. So none follows a success, an
    interrupted call, or a block.
  */
  lemma WhichCallsAreMade<T(!new)>(w: World<T>, maxAttempts: nat, i: nat)
    requires maxAttempts >= 1
    ensures i < Calls(w, maxAttempts) <==>
      i < maxAttempts && w.contextBefore(i).None? && forall k: nat | k < i :: IsWorthAnother(w, k)
  {
    var n := LastAttempt(w, maxAttempts, 0);
    forall k: nat | k < n
      ensures IsWorthAnother(w, k)
    {
      EarlierAttemptsGoOn(w, maxAttempts, 0, k);
    }
    assert n < i < maxAttempts ==> !IsWorthAnother(w, n);
    assert i < n ==> IsWorthAnother(w, i);
  }

  /**
    `RetryProvider.Search`. `n` is the first attempt that does not go on; the inner
    provider is called for it unless the context had ended before. The caller gets that
    call's answer, success or error, and the context's own error only when the inner
    provider was never asked.
  */
  method Search<T(!new)>(w: World<T>, maxAttempts: nat, base: int)
    returns (r: Result<T, Failure>, calls: nat, delays: seq<int>, ghost n: nat)
    requires maxAttempts >= 1 && 0 < base < TWO_63 && FairDraws(w)
    ensures n < maxAttempts && !GoesOn(w, maxAttempts, n)
    ensures forall i: nat :: i < n ==> GoesOn(w, maxAttempts, i)
    ensures n > 0 ==> GoesOn(w, maxAttempts, n - 1)
    ensures r == Verdict(w, n)
    ensures calls == n + (if w.contextBefore(n).None? then 1 else 0) <= maxAttempts
    ensures forall i: nat :: i < |delays| ==> i < calls && w.answer(i).Err? && DelayAfter(w, base, i, delays[i])
    ensures |delays| == n + (if w.contextBefore(n).None? && w.answer(n).Err? && IsRetryable(w.answer(n).error)
                                && n + 1 < maxAttempts then 1 else 0)
  {
    var lastErr: Option<Failure> := None;
    calls, delays, n := 0, [], 0;
    var attempt := 0;
    while attempt < maxAttempts
      invariant attempt < maxAttempts
      invariant n == attempt == calls == |delays|
      invariant forall i: nat :: i < attempt ==> GoesOn(w, maxAttempts, i)
      invariant attempt > 0 ==> GoesOn(w, maxAttempts, attempt - 1)
      invariant forall i: nat :: i < attempt ==> w.answer(i).Err? && DelayAfter(w, base, i, delays[i])
      invariant lastErr == if attempt == 0 then None else Some(w.answer(attempt - 1).error)
    {
      var ended := w.contextBefore(attempt);
      if ended.Some? {
        if lastErr.Some? {
          return Err(lastErr.value), calls, delays, n;
        }
        return Err(ended.value), calls, delays, n;
      }
      var answer := w.answer(attempt);
      calls := calls + 1;
      if answer.Ok? {
        return answer, calls, delays, n;
      }
      lastErr := Some(answer.error);
      if !IsRetryable(answer.error) {
        return answer, calls, delays, n;
      }
      if attempt == maxAttempts - 1 {
        break;
      }
      var delay := Delay(w, base, attempt, answer.error);
      delays := delays + [delay];
      var cut := w.waitCut(attempt);
      if cut.Some? {
        return Err(lastErr.value), calls, delays, n;
      }
      attempt, n := attempt + 1, n + 1;
    }
    r := Err(lastErr.value);
  }
}
