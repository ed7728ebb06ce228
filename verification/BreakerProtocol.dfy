/**
  The breaker as a protocol between any number of callers. A caller is admitted under the
  lock, runs its call unlocked, and reports back later; reports arrive in any order, may
  be stale, and may be cancelled. A run is a sequence of such steps and of clock ticks.
*/
module BreakerProtocol {
  import opened Wrappers
  import opened Numbers
  import opened Breaker

  /** An admitted call that has not reported back: its generation, and whether it is a trial. */
  datatype Call = Call(generation: nat, trial: bool)

  datatype System = System(fields: Fields, inflight: multiset<Call>, now: Time)

  datatype Event =
    | Tick(to: Time)
    | Begin
    | Done(call: Call, outcome: Outcome)

  function Start(at: Time): System {
    System(FRESH, multiset{}, at)
  }

  ghost predicate Enabled(s: System, e: Event) {
    match e
    case Tick(to) => s.now <= to
    case Begin => true
    case Done(call, _) => call in s.inflight
  }

  function Step(o: Options, s: System, e: Event): System {
    match e
    case Tick(to) => s.(now := to)
    case Begin =>
      var (f, admitted) := Admit(o, s.fields, s.now);
      if admitted
      then s.(fields := f, inflight := s.inflight + multiset{Call(f.generation, f.mode.HalfOpen?)})
      else s
    case Done(call, outcome) =>
      s.(fields := Complete(o, s.fields, call.generation, outcome, s.now),
         inflight := s.inflight - multiset{call})
  }

  function Run(o: Options, start: Time, es: seq<Event>): System {
    if es == [] then Start(start) else Step(o, Run(o, start, es[..|es| - 1]), es[|es| - 1])
  }

  ghost predicate Legal(o: Options, start: Time, es: seq<Event>) {
    es == [] ||
    (Legal(o, start, es[..|es| - 1]) && Enabled(Run(o, start, es[..|es| - 1]), es[|es| - 1]))
  }

  lemma OneMoreEvent(o: Options, start: Time, es: seq<Event>, e: Event)
    ensures Run(o, start, es + [e]) == Step(o, Run(o, start, es), e)
    ensures Legal(o, start, es + [e]) <==> Legal(o, start, es) && Enabled(Run(o, start, es), e)
  {
    assert (es + [e])[..|es|] == es;
  }

  ghost predicate Sane(o: Options) {
    o.threshold >= 1 && o.cooldown > 0
  }

  /** A call that may be in flight beside these fields. */
  ghost predicate Fits(f: Fields, c: Call) {
    // no call carries a generation from the future
    && c.generation <= f.generation
    // a trial that is still running is the trial of the present half-open period
    && (c.trial ==> f.mode.HalfOpen? && c.generation == f.generation)
    // only a closed breaker has ordinary calls of the current generation in flight
    && (!c.trial && c.generation == f.generation ==> f.mode.Closed?)
  }

  /** What every reachable state satisfies, in every interleaving. */
  ghost predicate Inv(o: Options, s: System) {
    var f := s.fields;
    && (forall c <- s.inflight :: Fits(f, c))
    // the trial slot is busy exactly while its one trial runs
    && s.inflight[Call(f.generation, true)] == (if f.busy then 1 else 0)
    && (f.busy ==> f.mode.HalfOpen?)
    // the failure count tells closed from tripped
    && (f.mode.Closed? ==> f.failures < o.threshold)
    && (!f.mode.Closed? ==> f.failures == o.threshold)
    && (f.mode.Open? ==> f.openedAt <= s.now)
    && (f.mode.HalfOpen? ==> f.openedAt + o.cooldown <= s.now)
  }

  lemma BeginKeepsInv(o: Options, s: System)
    requires Sane(o) && Inv(o, s)
    ensures Inv(o, Step(o, s, Begin))
  {
    var s' := Step(o, s, Begin);
    var (f, admitted) := Admit(o, s.fields, s.now);
    if admitted {
      if !s.fields.mode.Closed? {
        // nobody of this generation is running yet
        assert s.fields.mode.Open? ==> !Fits(s.fields, Call(f.generation, true));
        assert Call(f.generation, true) !in s.inflight;
      }
      forall c | c in s'.inflight
        ensures Fits(f, c)
      {
        if c in s.inflight {
          assert Fits(s.fields, c);
        }
      }
    }
  }

  lemma DoneKeepsInv(o: Options, s: System, call: Call, outcome: Outcome)
    requires Sane(o) && Inv(o, s) && call in s.inflight
    ensures Inv(o, Step(o, s, Done(call, outcome)))
  {
    var s' := Step(o, s, Done(call, outcome));
    var f, f' := s.fields, s'.fields;
    assert Fits(f, call);
    assert !Fits(f, Call(f.generation + 1, true));
    forall c | c in s'.inflight
      ensures Fits(f', c)
    {
      assert c in s.inflight && Fits(f, c);
      if c.trial {
        // the slot's one trial is still in flight, so it is not the call that reported
        assert c == Call(f.generation, true) && s.inflight[c] == 1;
        assert call != c;
      }
    }
  }

  lemma StepKeepsInv(o: Options, s: System, e: Event)
    requires Sane(o) && Inv(o, s) && Enabled(s, e)
    ensures Inv(o, Step(o, s, e))
  {
    match e
    case Tick(to) =>
    case Begin => BeginKeepsInv(o, s);
    case Done(call, outcome) => DoneKeepsInv(o, s, call, outcome);
  }

  /** Every reachable state satisfies the invariant. */
  lemma {:induction false} RunKeepsInv(o: Options, start: Time, es: seq<Event>)
    requires Sane(o) && Legal(o, start, es)
    ensures Inv(o, Run(o, start, es))
  {
    if es == [] {
    } else {
      RunKeepsInv(o, start, es[..|es| - 1]);
      StepKeepsInv(o, Run(o, start, es[..|es| - 1]), es[|es| - 1]);
    }
  }

  /** At most one trial is ever in flight, stale calls and cancelled trials included. */
  lemma AtMostOneTrial(o: Options, start: Time, es: seq<Event>, trials: multiset<Call>)
    requires Sane(o) && Legal(o, start, es)
    requires trials <= Run(o, start, es).inflight && forall c <- trials :: c.trial
    ensures |trials| <= 1
    ensures |trials| == 1 ==> Run(o, start, es).fields.busy
  {
    RunKeepsInv(o, start, es);
    var f := Run(o, start, es).fields;
    var t := Call(f.generation, true);
    if trials != multiset{} {
      forall c | c in trials
        ensures c == t
      {
      }
      assert trials == multiset{}[t := trials[t]];
    }
  }

  // ---------------------------------------------------------------------------------
  // The breaker as a sequential automaton over verdicts
  // ---------------------------------------------------------------------------------

  /** A report that counts: from the current generation and not cancelled. */
  datatype Verdict = Verdict(err: Option<string>, at: Time)

  ghost predicate Counts(s: System, e: Event) {
    e.Done? && e.call.generation == s.fields.generation && !e.outcome.canceled
  }

  ghost function Verdicts(o: Options, start: Time, es: seq<Event>): seq<Verdict> {
    if es == [] then [] else
      var s, e := Run(o, start, es[..|es| - 1]), es[|es| - 1];
      Verdicts(o, start, es[..|es| - 1]) +
      if Counts(s, e) then [Verdict(e.outcome.err, s.now)] else []
  }

  /** The length of the run of failures at the end of a history. */
  ghost function TrailingFailures(vs: seq<Verdict>): nat {
    if vs == [] || vs[|vs| - 1].err.None? then 0 else 1 + TrailingFailures(vs[..|vs| - 1])
  }

  /** The breaker's state, read off a history of verdicts. */
  ghost predicate Reflects(o: Options, f: Fields, vs: seq<Verdict>) {
    var run := TrailingFailures(vs);
    && (f.mode.Closed? <==> run < o.threshold)
    && f.failures == (if run < o.threshold then run else o.threshold)
    && (!f.mode.Closed? ==> vs != [] && f.openedAt == vs[|vs| - 1].at)
    && f.lastErr == (if vs == [] then None else vs[|vs| - 1].err)
  }

  lemma StepReflects(o: Options, s: System, e: Event, vs: seq<Verdict>)
    requires Sane(o) && Inv(o, s) && Enabled(s, e)
    requires Reflects(o, s.fields, vs)
    ensures Reflects(o, Step(o, s, e).fields, if Counts(s, e) then vs + [Verdict(e.outcome.err, s.now)] else vs)
  {
    if e.Done? {
      assert Fits(s.fields, e.call);
    }
    if Counts(s, e) {
      var v := Verdict(e.outcome.err, s.now);
      assert (vs + [v])[..|vs|] == vs;
    }
  }

  /**
    However callers interleave, the breaker's state is a function of the counting verdicts
    alone: it is closed exactly while fewer than `threshold` of the latest verdicts are
    failures in a row, its counter is that number (and stays at the threshold once
    tripped), a tripped breaker was opened by the latest verdict, and the error it reports
    is the latest verdict's.
  */
  lemma {:induction false} StateIsTrailingFailures(o: Options, start: Time, es: seq<Event>)
    requires Sane(o) && Legal(o, start, es)
    ensures Reflects(o, Run(o, start, es).fields, Verdicts(o, start, es))
  {
    if es == [] {
    } else {
      var es', e := es[..|es| - 1], es[|es| - 1];
      StateIsTrailingFailures(o, start, es');
      RunKeepsInv(o, start, es');
      StepReflects(o, Run(o, start, es'), e, Verdicts(o, start, es'));
      assert Verdicts(o, start, es') + [] == Verdicts(o, start, es');
    }
  }

  /**
    A caller that gets past a tripped breaker, whether it opened the half-open period or
    took over the slot of a cancelled trial, does so at least one cooldown after the
    failure that tripped it.
  */
  lemma AdmissionWaitsOutCooldown(o: Options, start: Time, es: seq<Event>)
    requires Sane(o) && Legal(o, start, es)
    requires var s := Run(o, start, es); Admit(o, s.fields, s.now).1
    ensures var vs := Verdicts(o, start, es);
      TrailingFailures(vs) >= o.threshold ==>
        && vs != []
        && vs[|vs| - 1].err.Some?
        && Run(o, start, es).now >= vs[|vs| - 1].at + o.cooldown
  {
    StateIsTrailingFailures(o, start, es);
    RunKeepsInv(o, start, es);
  }

  /** No failure streak of `threshold` is standing; or its last failure is a cooldown old and nobody is trying. */
  ghost predicate LetsIn(o: Options, start: Time, es: seq<Event>) {
    var vs, s := Verdicts(o, start, es), Run(o, start, es);
    TrailingFailures(vs) < o.threshold
    || (vs != [] && vs[|vs| - 1].at + o.cooldown <= s.now && forall c <- s.inflight :: !c.trial)
  }

  /** The slot is busy exactly while some trial is in flight. */
  lemma BusyIsTrying(o: Options, s: System)
    requires Inv(o, s)
    ensures s.fields.busy <==> exists c <- s.inflight :: c.trial
  {
    var t := Call(s.fields.generation, true);
    if s.fields.busy {
      assert t in s.inflight && t.trial;
    }
    forall c | c in s.inflight && c.trial
      ensures s.fields.busy
    {
      assert Fits(s.fields, c) && c == t;
    }
  }

  /**
    Exactly when a caller gets in, in every interleaving, and as what: as a trial if a
    failure streak is standing, as an ordinary call if not. A caller that does not get in
    changes nothing.
  */
  lemma WhoGetsIn(o: Options, start: Time, es: seq<Event>)
    requires Sane(o) && Legal(o, start, es)
    ensures var s, after := Run(o, start, es), Run(o, start, es + [Begin]);
      if LetsIn(o, start, es)
      then
        var trial := TrailingFailures(Verdicts(o, start, es)) >= o.threshold;
        after.inflight == s.inflight + multiset{Call(after.fields.generation, trial)}
      else after == s
  {
    hide Fits, Run, Verdicts, TrailingFailures;
    StateIsTrailingFailures(o, start, es);
    RunKeepsInv(o, start, es);
    BusyIsTrying(o, Run(o, start, es));
    OneMoreEvent(o, start, es, Begin);
  }

  /** In particular, when a trial is cancelled, the next caller takes over. */
  lemma CancelledTrialIsReplaced(o: Options, start: Time, es: seq<Event>, call: Call, outcome: Outcome)
    requires Sane(o) && Legal(o, start, es)
    requires call in Run(o, start, es).inflight && call.trial && outcome.canceled
    ensures LetsIn(o, start, es + [Done(call, outcome)])
  {
    var es' := es + [Done(call, outcome)];
    OneMoreEvent(o, start, es, Done(call, outcome));
    RunKeepsInv(o, start, es);
    assert Fits(Run(o, start, es).fields, call);
    RunKeepsInv(o, start, es');
    StateIsTrailingFailures(o, start, es');
    BusyIsTrying(o, Run(o, start, es'));
  }

  /** How often the breaker has changed its mode. */
  ghost function ModeChanges(o: Options, start: Time, es: seq<Event>): nat {
    if es == [] then 0 else
      ModeChanges(o, start, es[..|es| - 1]) +
      if Run(o, start, es).fields.mode == Run(o, start, es[..|es| - 1]).fields.mode then 0 else 1
  }

  lemma StepCountsModeChange(o: Options, s: System, e: Event)
    requires Sane(o) && Inv(o, s) && Enabled(s, e)
    ensures Step(o, s, e).fields.generation
         == s.fields.generation + if Step(o, s, e).fields.mode == s.fields.mode then 0 else 1
  {
  }

  /**
    The generation counts mode changes, so that a report is stale exactly if the breaker
    has changed its mode since the call was admitted.
  */
  lemma {:induction false} GenerationCountsModeChanges(o: Options, start: Time, es: seq<Event>)
    requires Sane(o) && Legal(o, start, es)
    ensures Run(o, start, es).fields.generation == ModeChanges(o, start, es)
  {
    if es == [] {
    } else {
      var es' := es[..|es| - 1];
      GenerationCountsModeChanges(o, start, es');
      RunKeepsInv(o, start, es');
      StepCountsModeChange(o, Run(o, start, es'), es[|es| - 1]);
    }
  }

  // ---------------------------------------------------------------------------------
  // Stale and cancelled reports
  // ---------------------------------------------------------------------------------

  /** Reports that the breaker must not learn from: stale ones, and cancelled ones while closed. */
  ghost predicate Noise(s: System, e: Event) {
    e.Done? && (e.call.generation != s.fields.generation || (e.outcome.canceled && s.fields.mode.Closed?))
  }

  ghost function WithoutNoise(o: Options, start: Time, es: seq<Event>): seq<Event> {
    if es == [] then [] else
      var es' := es[..|es| - 1];
      WithoutNoise(o, start, es') + if Noise(Run(o, start, es'), es[|es| - 1]) then [] else [es[|es| - 1]]
  }

  /** `q` is as far as `s`, with perhaps more calls in flight. */
  ghost predicate Quieter(s: System, q: System) {
    q.fields == s.fields && q.now == s.now && s.inflight <= q.inflight
  }

  lemma StepKeepsQuieter(o: Options, s: System, q: System, e: Event)
    requires Quieter(s, q) && Enabled(s, e)
    ensures if Noise(s, e) then Quieter(Step(o, s, e), q) else Enabled(q, e) && Quieter(Step(o, s, e), Step(o, q, e))
  {
  }

  /** Erasing every such report leaves a legal run that ends in the same breaker state. */
  lemma {:induction false} NoiseIsIrrelevant(o: Options, start: Time, es: seq<Event>)
    requires Legal(o, start, es)
    ensures Legal(o, start, WithoutNoise(o, start, es))
    ensures Quieter(Run(o, start, es), Run(o, start, WithoutNoise(o, start, es)))
  {
    if es == [] {
    } else {
      var es', e := es[..|es| - 1], es[|es| - 1];
      var quiet' := WithoutNoise(o, start, es');
      NoiseIsIrrelevant(o, start, es');
      StepKeepsQuieter(o, Run(o, start, es'), Run(o, start, quiet'), e);
      OneMoreEvent(o, start, quiet', e);
      assert quiet' + [] == quiet';
    }
  }

  /** And it leaves nothing but events of the run. */
  lemma {:induction false} WithoutNoiseIsPart(o: Options, start: Time, es: seq<Event>)
    ensures forall e <- WithoutNoise(o, start, es) :: e in es
  {
    if es == [] {
    } else {
      WithoutNoiseIsPart(o, start, es[..|es| - 1]);
    }
  }

  // ---------------------------------------------------------------------------------
  // Timing
  // ---------------------------------------------------------------------------------

  /** The instant from which the present state counts: since when it is open, or now. */
  ghost function Reached(s: System): Time {
    if s.fields.mode.Open? then s.fields.openedAt else s.now
  }

  /** Whether this step starts a half-open period. */
  ghost predicate StartsPeriod(o: Options, s: System, e: Event) {
    s.fields.mode.Open? && Step(o, s, e).fields.mode.HalfOpen?
  }

  /** 1 when this step admits a trial, else 0. */
  ghost function AdmitsTrial(o: Options, s: System, e: Event): nat {
    if e.Begin? && !s.fields.mode.Closed? && Admit(o, s.fields, s.now).1 then 1 else 0
  }

  /** 1 when this step is a trial given up by its caller, else 0. */
  ghost function CancelsTrial(e: Event): nat {
    if e.Done? && e.call.trial && e.outcome.canceled then 1 else 0
  }

  /** 1 while a half-open breaker waits for its next trial, else 0. */
  ghost function SlotFree(s: System): nat {
    if s.fields.mode.HalfOpen? && !s.fields.busy then 1 else 0
  }

  ghost function HalfOpenPeriods(o: Options, start: Time, es: seq<Event>): nat {
    if es == [] then 0 else
      HalfOpenPeriods(o, start, es[..|es| - 1]) +
      if StartsPeriod(o, Run(o, start, es[..|es| - 1]), es[|es| - 1]) then 1 else 0
  }

  ghost function TrialsAdmitted(o: Options, start: Time, es: seq<Event>): nat {
    if es == [] then 0 else
      TrialsAdmitted(o, start, es[..|es| - 1]) +
      AdmitsTrial(o, Run(o, start, es[..|es| - 1]), es[|es| - 1])
  }

  ghost function TrialsCanceled(o: Options, start: Time, es: seq<Event>): nat {
    if es == [] then 0 else TrialsCanceled(o, start, es[..|es| - 1]) + CancelsTrial(es[|es| - 1])
  }

  lemma StepTakesTime(o: Options, s: System, e: Event)
    requires Sane(o) && Inv(o, s) && Enabled(s, e)
    ensures Reached(Step(o, s, e)) >= Reached(s) + if StartsPeriod(o, s, e) then o.cooldown else 0
  {
    if e.Done? {
      assert Fits(s.fields, e.call);
    }
  }

  /** `periods` half-open periods since `start` have each taken a cooldown. */
  ghost predicate Spaced(o: Options, start: Time, s: System, periods: nat) {
    periods * o.cooldown <= Reached(s) - start && Reached(s) <= s.now
  }

  lemma StepKeepsSpaced(o: Options, start: Time, s: System, e: Event, periods: nat)
    requires Sane(o) && Inv(o, s) && Enabled(s, e)
    requires Spaced(o, start, s, periods)
    ensures Spaced(o, start, Step(o, s, e), periods + if StartsPeriod(o, s, e) then 1 else 0)
  {
    StepTakesTime(o, s, e);
    StepKeepsInv(o, s, e);
    assert (periods + 1) * o.cooldown == periods * o.cooldown + o.cooldown;
  }

  /** Half-open periods are at least a cooldown apart: k of them take k cooldowns. */
  lemma {:induction false} HalfOpenPeriodsAreSpaced(o: Options, start: Time, es: seq<Event>)
    requires Sane(o) && Legal(o, start, es)
    ensures Spaced(o, start, Run(o, start, es), HalfOpenPeriods(o, start, es))
  {
    if es == [] {
    } else {
      var es', e := es[..|es| - 1], es[|es| - 1];
      HalfOpenPeriodsAreSpaced(o, start, es');
      RunKeepsInv(o, start, es');
      StepKeepsSpaced(o, start, Run(o, start, es'), e, HalfOpenPeriods(o, start, es'));
    }
  }

  /** The balance of trials in one step. */
  lemma StepAccountsForTrials(o: Options, s: System, e: Event)
    requires Sane(o) && Inv(o, s) && Enabled(s, e)
    ensures
      AdmitsTrial(o, s, e) + SlotFree(Step(o, s, e)) - SlotFree(s)
      == (if StartsPeriod(o, s, e) then 1 else 0) + CancelsTrial(e)
  {
    if e.Done? {
      assert Fits(s.fields, e.call);
    }
  }

  /**
    Trials beyond one per half-open period are exactly the replacements of cancelled ones:
    no cancelled trial loses the slot, and none is replaced twice.
  */
  lemma {:induction false} TrialsAreAccountedFor(o: Options, start: Time, es: seq<Event>)
    requires Sane(o) && Legal(o, start, es)
    ensures TrialsAdmitted(o, start, es) + SlotFree(Run(o, start, es))
         == HalfOpenPeriods(o, start, es) + TrialsCanceled(o, start, es)
  {
    if es == [] {
    } else {
      var es', e := es[..|es| - 1], es[|es| - 1];
      TrialsAreAccountedFor(o, start, es');
      RunKeepsInv(o, start, es');
      StepAccountsForTrials(o, Run(o, start, es'), e);
    }
  }
}
