/**
  The circuit breaker object. The two critical sections of the source, the one before a
  call and the one after it, are methods of `CircuitBreaker`; `Admit` and `Complete` say
  what each does to the breaker's fields, so that the protocol over many callers can be
  reasoned about on values (module BreakerProtocol).
*/
module Breaker {
  import opened Wrappers
  import opened Numbers

  datatype Mode = Closed | Open | HalfOpen

  datatype Options = Options(threshold: int, cooldown: int)

  /** What the constructor makes of the options: a threshold of at least 1, a positive cooldown. */
  function Clamp(o: Options): (r: Options)
    ensures r.threshold >= 1 && r.cooldown > 0
    ensures o.threshold >= 1 ==> r.threshold == o.threshold
    ensures o.cooldown > 0 ==> r.cooldown == o.cooldown
    ensures o.threshold < 1 ==> r.threshold == 1
    ensures o.cooldown <= 0 ==> r.cooldown == 30_000_000_000
  {
    Options(if o.threshold < 1 then 1 else o.threshold,
            if o.cooldown <= 0 then 30_000_000_000 else o.cooldown)
  }

  /** The fields guarded by the breaker's mutex. */
  datatype Fields = Fields(
    mode: Mode,
    generation: nat,
    failures: nat,
    openedAt: Time,
    busy: bool,
    lastErr: Option<string>)

  const FRESH := Fields(Closed, 0, 0, 0, false, None)

  /** The section before a call: the new fields, and whether the caller may go on. */
  function Admit(o: Options, f: Fields, now: Time): (Fields, bool) {
    match f.mode
    case Open =>
      if now - f.openedAt >= o.cooldown
      then (f.(mode := HalfOpen, generation := f.generation + 1, busy := true), true)
      else (f, false)
    case HalfOpen =>
      if f.busy then (f, false) else (f.(busy := true), true)
    case Closed => (f, true)
  }

  /** How a call ended, as the section after it sees it. */
  datatype Outcome = Outcome(err: Option<string>, canceled: bool)

  /** The section after a call that was admitted under `generation`. */
  function Complete(o: Options, f: Fields, generation: nat, outcome: Outcome, now: Time): Fields {
    if generation != f.generation then f
    else if outcome.canceled then (if f.mode.HalfOpen? then f.(busy := false) else f)
    else
      var f := if f.mode.HalfOpen? then f.(busy := false) else f;
      match outcome.err
      case None =>
        f.(mode := Closed, failures := 0, lastErr := None,
           generation := if f.mode.Closed? then f.generation else f.generation + 1)
      case Some(_) =>
        var f := f.(lastErr := outcome.err);
        if f.mode.HalfOpen? then
          f.(mode := Open, generation := f.generation + 1, openedAt := now)
        else if f.failures + 1 >= o.threshold then
          f.(mode := Open, generation := f.generation + 1, openedAt := now, failures := f.failures + 1)
        else
          f.(failures := f.failures + 1)
  }

  class CircuitBreaker {
    const opts: Options
    var state: Mode
    var generation: nat
    var failures: nat
    var openedAt: Time
    var halfOpenBusy: bool
    var lastErr: Option<string>

    ghost function Contents(): Fields
      reads this
    {
      Fields(state, generation, failures, openedAt, halfOpenBusy, lastErr)
    }

    constructor (options: Options)
      ensures opts == Clamp(options)
      ensures Contents() == FRESH
    {
      opts := Clamp(options);
      state, generation, failures := Closed, 0, 0;
      openedAt, halfOpenBusy, lastErr := 0, false, None;
    }

    /** `beforeCall`: decides whether a call may proceed, and under which generation. */
    method BeforeCall(now: Time) returns (gen: nat, admitted: bool)
      modifies this
      ensures (Contents(), admitted) == Admit(opts, old(Contents()), now)
      ensures gen == generation
    {
      match state {
        case Open =>
          if now - openedAt >= opts.cooldown {
            state := HalfOpen;
            generation := generation + 1;
            halfOpenBusy := true;
            return generation, true;
          }
          return generation, false;
        case HalfOpen =>
          if halfOpenBusy {
            return generation, false;
          }
          halfOpenBusy := true;
          return generation, true;
        case Closed =>
          return generation, true;
      }
    }

    /** `afterCall`: records the outcome of a call admitted under `gen`. */
    method AfterCall(gen: nat, err: Option<string>, canceled: bool, now: Time)
      modifies this
      ensures Contents() == Complete(opts, old(Contents()), gen, Outcome(err, canceled), now)
    {
      if gen != generation {
        return;
      }
      if canceled {
        if state == HalfOpen {
          halfOpenBusy := false;
        }
        return;
      }
      if state == HalfOpen {
        halfOpenBusy := false;
      }
      if err == None {
        if state != Closed {
          generation := generation + 1;
        }
        state := Closed;
        failures := 0;
        lastErr := None;
        return;
      }
      lastErr := err;
      match state {
        case HalfOpen =>
          state := Open;
          generation := generation + 1;
          openedAt := now;
        case _ =>
          failures := failures + 1;
          if failures >= opts.threshold {
            state := Open;
            generation := generation + 1;
            openedAt := now;
          }
      }
    }
  }
}
