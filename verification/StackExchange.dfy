/**
  The Stack Exchange cooldown. A one-slot gate serializes requests; a response may put
  the next request off. The two critical pieces of code are methods of a class, the
  callers' interleavings are a step system on top of what they do to the field.
*/
module StackExchange {
  import opened Wrappers
  import opened Numbers

  const SECOND := 1_000_000_000
  const DAY := 86_400 * SECOND

  /** The throttling fields of a response. */
  datatype Envelope = Envelope(backoff: int, errorId: int, quotaRemaining: Option<int>)

  const THROTTLE_ERROR := 502

  /** The zero time: the start of the year 1. */
  const ZERO_TIME := -62_135_596_800 * SECOND

  /** Whole seconds, rounded toward zero as a conversion to an integer does. */
  function TruncSeconds(d: int): int {
    if d >= 0 then d / SECOND else -(-d / SECOND)
  }

  /** The next midnight, UTC; times count from the Unix epoch. */
  function Midnight(now: Time): Time {
    (now / DAY + 1) * DAY
  }

  /** The wait a response asks for. The clock is read for the date, then for the distance. */
  function Seconds(e: Envelope, dated: Time, measured: Time): int {
    var seconds := if e.errorId == THROTTLE_ERROR then Max(e.backoff, 60) else e.backoff;
    if e.quotaRemaining == Some(0)
    then Max(seconds, TruncSeconds(Midnight(dated) - measured) + 1)
    else seconds
  }

  /** What `decode` makes of `nextAllowed`; `written` is when the clock is read for it. */
  function NextAllowed(before: Time, e: Envelope, dated: Time, measured: Time, written: Time): Time {
    var seconds := Seconds(e, dated, measured);
    if seconds > 0 then written + Min(seconds, 86_400) * SECOND else before
  }

  class StackExchange {
    var nextAllowed: Time

    constructor ()
      ensures nextAllowed == ZERO_TIME
    {
      nextAllowed := ZERO_TIME;
    }

    /** The check of `Search` before the request: how long to wait, if at all. */
    method Delay(now: Time) returns (delay: Option<int>)
      ensures delay == if nextAllowed > now then Some(nextAllowed - now) else None
    {
      var d := nextAllowed - now;
      delay := if d > 0 then Some(d) else None;
    }

    /** The bookkeeping of `decode`; a throttle error carries the remaining wait. */
    method Decode(e: Envelope, dated: Time, measured: Time, written: Time, reported: Time)
      returns (throttled: Option<int>)
      modifies this
      ensures nextAllowed == NextAllowed(old(nextAllowed), e, dated, measured, written)
      ensures throttled == if e.errorId == THROTTLE_ERROR then Some(nextAllowed - reported) else None
    {
      var seconds := e.backoff;
      if e.errorId == THROTTLE_ERROR {
        seconds := Max(seconds, 60);
      }
      if e.quotaRemaining.Some? && e.quotaRemaining.value == 0 {
        var midnight := Midnight(dated);
        seconds := Max(seconds, TruncSeconds(midnight - measured) + 1);
      }
      if seconds > 0 {
        nextAllowed := written + Min(seconds, 86_400) * SECOND;
      }
      throttled := None;
      if e.errorId == THROTTLE_ERROR {
        throttled := Some(nextAllowed - reported);
      }
    }
  }

  // ---------------------------------------------------------------------------------
  // Callers
  // ---------------------------------------------------------------------------------

  type Caller = nat

  /** A caller inside the gate: before its check, with a request under way, or on its way out. */
  datatype Phase = Entered | Requesting | Leaving

  /** `taken` is the number of tokens in the gate channel, whose capacity is one. */
  datatype System = System(inside: map<Caller, Phase>, taken: nat, nextAllowed: Time, now: Time)

  datatype Event =
    | Tick(to: Time)
    | Enter(who: Caller)
    | Check(who: Caller)
    | Fail(who: Caller)
    | Response(who: Caller, e: Envelope, dated: Time, measured: Time, written: Time)
    | Leave(who: Caller)

  ghost predicate Enabled(s: System, e: Event) {
    match e
    case Tick(to) => s.now <= to
    case Enter(who) => s.taken < 1 && who !in s.inside
    case Check(who) => who in s.inside && s.inside[who] == Entered
    case Fail(who) => who in s.inside && s.inside[who] == Requesting
    case Response(who, _, dated, measured, written) =>
      who in s.inside && s.inside[who] == Requesting && s.now <= dated <= measured <= written
    case Leave(who) => who in s.inside && s.inside[who] == Leaving
  }

  function Step(s: System, e: Event): System {
    match e
    case Tick(to) => s.(now := to)
    case Enter(who) => s.(inside := s.inside[who := Entered], taken := s.taken + 1)
    case Check(who) => s.(inside := s.inside[who := if s.nextAllowed > s.now then Leaving else Requesting])
    case Fail(who) => s.(inside := s.inside[who := Leaving])
    case Response(who, env, dated, measured, written) =>
      s.(inside := s.inside[who := Leaving], now := written,
         nextAllowed := NextAllowed(s.nextAllowed, env, dated, measured, written))
    case Leave(who) => s.(inside := s.inside - {who}, taken := if s.taken > 0 then s.taken - 1 else 0)
  }

  /** With this step a request goes out upstream. */
  ghost predicate StartsRequest(s: System, e: Event) {
    e.Check? && Step(s, e).inside[e.who] == Requesting
  }

  /** The channel counts who is inside, so at most one is; whoever requests was allowed to. */
  ghost predicate Inv(s: System) {
    && s.taken == |s.inside.Keys| <= 1
    && forall who <- s.inside :: s.inside[who] == Requesting ==> s.nextAllowed <= s.now
  }

  lemma OnlyOneInside(s: System, a: Caller, b: Caller)
    requires Inv(s) && a in s.inside && b in s.inside
    ensures a == b
  {
    assert |s.inside.Keys - {a}| == |s.inside.Keys| - 1;
  }

  /** Every step keeps the invariant, and none moves `nextAllowed` or the clock back. */
  lemma StepKeepsInv(s: System, e: Event)
    requires Inv(s) && Enabled(s, e)
    ensures Inv(Step(s, e))
    ensures s.nextAllowed <= Step(s, e).nextAllowed && s.now <= Step(s, e).now
  {
    var s' := Step(s, e);
    match e
    case Tick(_) =>
    case Enter(who) =>
      assert s'.inside.Keys == s.inside.Keys + {who};
    case Check(who) =>
      assert s'.inside.Keys == s.inside.Keys;
    case Fail(who) =>
      assert s'.inside.Keys == s.inside.Keys;
    case Response(who, _, _, _, _) =>
      assert s'.inside.Keys == s.inside.Keys;
      forall other <- s'.inside
        ensures s'.inside[other] == Leaving
      {
        OnlyOneInside(s, who, other);
      }
    case Leave(who) =>
      assert s'.inside.Keys == s.inside.Keys - {who};
  }

  function Run(start: Time, es: seq<Event>): System {
    if es == [] then System(map[], 0, ZERO_TIME, start) else Step(Run(start, es[..|es| - 1]), es[|es| - 1])
  }

  ghost predicate Legal(start: Time, es: seq<Event>) {
    es == [] || (Legal(start, es[..|es| - 1]) && Enabled(Run(start, es[..|es| - 1]), es[|es| - 1]))
  }

  lemma {:induction false} RunKeepsInv(start: Time, es: seq<Event>)
    requires Legal(start, es)
    ensures Inv(Run(start, es))
  {
    if es == [] {
    } else {
      RunKeepsInv(start, es[..|es| - 1]);
      StepKeepsInv(Run(start, es[..|es| - 1]), es[|es| - 1]);
    }
  }

  /** Over a run, `nextAllowed` never decreases. */
  lemma {:induction false} NeverEarlier(start: Time, es: seq<Event>, i: nat)
    requires Legal(start, es) && i <= |es|
    ensures Legal(start, es[..i])
    ensures Run(start, es[..i]).nextAllowed <= Run(start, es).nextAllowed
    ensures Run(start, es[..i]).now <= Run(start, es).now
  {
    if i == |es| {
      assert es[..i] == es;
    } else {
      var before := es[..|es| - 1];
      NeverEarlier(start, before, i);
      assert before[..i] == es[..i];
      RunKeepsInv(start, before);
      StepKeepsInv(Run(start, before), es[|es| - 1]);
    }
  }

  /** The cooldown a response asks for, clamped to one day. */
  function Cooldown(e: Event): int
    requires e.Response?
  {
    Min(Seconds(e.e, e.dated, e.measured), 86_400) * SECOND
  }

  /** The state before event `i` of a run. */
  function At(start: Time, es: seq<Event>, i: nat): System
    requires i <= |es|
  {
    Run(start, es[..i])
  }

  lemma AfterEvent(start: Time, es: seq<Event>, i: nat, j: nat)
    requires Legal(start, es) && i < j <= |es|
    ensures Enabled(At(start, es, i), es[i])
    ensures Step(At(start, es, i), es[i]).nextAllowed <= At(start, es, j).nextAllowed
    ensures Step(At(start, es, i), es[i]).now <= At(start, es, j).now
  {
    var upto, after := es[..j], es[..i + 1];
    NeverEarlier(start, es, j);
    NeverEarlier(start, upto, i + 1);
    assert upto[..i + 1] == after && after[..i] == es[..i];
  }

  /**
    After a response, received at time t, that asks for a cooldown of s seconds, no later
    request goes out before t + s, whoever makes it.
  */
  lemma CooldownIsKept(start: Time, es: seq<Event>, i: nat, j: nat)
    requires Legal(start, es) && i < j < |es|
    requires es[i].Response? && Cooldown(es[i]) > 0
    requires StartsRequest(At(start, es, j), es[j])
    ensures At(start, es, j).now >= At(start, es, i).now + Cooldown(es[i])
  {
    AfterEvent(start, es, i, j);
  }

  /** The next whole day. */
  lemma MidnightIsNext(t: Time)
    ensures t < Midnight(t) <= t + 24 * 60 * 60 * 1_000_000_000
    ensures Midnight(t) % (24 * 60 * 60 * 1_000_000_000) == 0
  {
  }

  lemma MidnightGrows(a: Time, b: Time)
    requires a <= b
    ensures Midnight(a) <= Midnight(b)
  {
    MidnightIsNext(a);
    MidnightIsNext(b);
    assert a / DAY <= b / DAY;
  }

  /** The distance to midnight is rounded up, so the wait covers it. */
  lemma QuotaWaitCoversMidnight(e: Envelope, dated: Time, measured: Time, written: Time, before: Time)
    requires e.quotaRemaining == Some(0) && dated <= measured <= written
    ensures NextAllowed(before, e, dated, measured, written) >= Midnight(dated) || written >= Midnight(dated)
  {
    MidnightIsNext(dated);
    var left := Midnight(dated) - measured;
    assert left >= 0 ==> (TruncSeconds(left) + 1) * SECOND > left;
  }

  /** After a response that says the quota is used up, no request goes out before midnight, UTC. */
  lemma QuotaIsKeptUntilMidnight(start: Time, es: seq<Event>, i: nat, j: nat)
    requires Legal(start, es) && i < j < |es|
    requires es[i].Response? && es[i].e.quotaRemaining == Some(0)
    requires StartsRequest(At(start, es, j), es[j])
    ensures At(start, es, j).now >= Midnight(At(start, es, i).now)
  {
    AfterEvent(start, es, i, j);
    var s, r := At(start, es, i), es[i];
    QuotaWaitCoversMidnight(r.e, r.dated, r.measured, r.written, s.nextAllowed);
    MidnightGrows(s.now, r.dated);
  }

  // ---------------------------------------------------------------------------------
  // How long a response puts requests off
  // ---------------------------------------------------------------------------------

  /**
    A response asks for its own backoff, at least sixty seconds with error 502, and past
    midnight when the quota is used up; and for no more than the longest of these.
  */
  lemma SecondsAreLongestWait(e: Envelope, dated: Time, measured: Time)
    ensures var s, left := Seconds(e, dated, measured), Midnight(dated) - measured;
      && s >= e.backoff
      && (e.errorId == 502 ==> s >= 60)
      && (e.quotaRemaining == Some(0) ==> s * 1_000_000_000 > left)
      && (|| s == e.backoff
          || (e.errorId == 502 && s == 60)
          || (e.quotaRemaining == Some(0) && (s - 1) * 1_000_000_000 <= left)
          || (e.quotaRemaining == Some(0) && s <= 1))
  {
  }

  /** No request goes out within a minute of error 502, nor within the backoff that a response names. */
  lemma ThrottleIsKept(start: Time, es: seq<Event>, i: nat, j: nat)
    requires Legal(start, es) && i < j < |es| && es[i].Response?
    requires StartsRequest(At(start, es, j), es[j])
    ensures es[i].e.errorId == 502 ==> At(start, es, j).now >= At(start, es, i).now + 60 * 1_000_000_000
    ensures es[i].e.backoff > 0 ==>
      At(start, es, j).now >= At(start, es, i).now + Min(es[i].e.backoff, 24 * 60 * 60) * 1_000_000_000
  {
    SecondsAreLongestWait(es[i].e, es[i].dated, es[i].measured);
    if Cooldown(es[i]) > 0 {
      CooldownIsKept(start, es, i, j);
    }
  }

  /** Until when the last response that asked for a wait puts requests off. */
  ghost function LastWait(es: seq<Event>): Option<Time> {
    if es == [] then None else
      var before, e := es[..|es| - 1], es[|es| - 1];
      if e.Response? && Seconds(e.e, e.dated, e.measured) > 0
      then Some(e.written + Min(Seconds(e.e, e.dated, e.measured), 24 * 60 * 60) * 1_000_000_000)
      else LastWait(before)
  }

  /** And for no longer: a caller inside the gate gets through exactly from then on. */
  lemma {:induction false} RequestsResume(start: Time, es: seq<Event>)
    ensures Run(start, es).nextAllowed == if LastWait(es).Some? then LastWait(es).value else ZERO_TIME
    ensures forall who :: StartsRequest(Run(start, es), Check(who)) <==>
      Run(start, es).now >= if LastWait(es).Some? then LastWait(es).value else ZERO_TIME
  {
    if es == [] {
    } else {
      RequestsResume(start, es[..|es| - 1]);
    }
  }
}
