/** Which rate is in force: one that was set, or learned from a complete sample, or tried by a probe. */
module PacerRates {
  import opened Basics
  import opened Estimator
  import opened Pacer
  import opened PacerProofs
  import opened PacerLaws

  // ---- a fixed rate ----

  /** A rate that was set is in force from then on. */
  lemma FixedRateHolds(c: Controller, clock: int, rate: int, now: int)
    requires Reachable(c, clock) && Enabled(c, clock, DoSetRate(rate, now))
    ensures var d := Apply(c, DoSetRate(rate, now)); d.targetRate == rate && forall t :: RateAt(d, t) == rate
  {
    ReachableGood(c, clock);
    ReachableOneMore(c, clock, DoSetRate(rate, now));
    ReachableGood(Apply(c, DoSetRate(rate, now)), now);
  }

  lemma FixedRateStep(c: Controller, e: Event)
    requires c.mode == FixedRate && !c.probe.active && !e.DoSetRate?
    ensures var d := Apply(c, e); d.mode == FixedRate && !d.probe.active && d.targetRate == c.targetRate
  {
  }

  lemma FixedRatePours(c: Controller, clock: int, e: Event, end: int)
    requires Good(c, clock) && Enabled(c, clock, e) && c.mode == FixedRate && !e.DoSetRate? && ClockAfter(e) <= end
    ensures Integrated(Apply(c, e), end) == Integrated(c, end)
  {
    FixedRateStep(c, e);
    StepGood(c, clock, e);
    if e.DoAttempt? { FixedAttempt(c, clock, e, end); }
    if e.DoRefund? && e.amount != 0 { RefillPours(c, e.now, end); }
  }

  lemma FixedAttempt(c: Controller, clock: int, e: Event, end: int)
    requires Good(c, clock) && c.mode == FixedRate && e.DoAttempt? && clock <= e.now <= e.asleep <= end
    ensures Integrated(Apply(c, e), end) == Integrated(c, end)
  {
    RefillPours(c, e.now, end);
    NoProbe(c, e.now);
  }

  lemma RefillPours(c: Controller, now: int, end: int)
    requires Good(c, now) && c.mode == FixedRate && now <= end
    ensures Integrated(Refill(c, now), end) == Integrated(c, end)
  {
    NoProbe(c, now);
    RefillTokens(c, now);
    RefillAccount(c, now);
    RefillRates(c, now);
    AccountFields(Refill(c, now), AccountAt(c, now));
    IntegralAdds(c, c.lastRefill, now, end);
  }

  lemma {:induction false} FixedRateStays(c: Controller, clock: int, events: seq<Event>, d: Controller, end: int)
    requires Good(c, clock) && c.mode == FixedRate && Run(c, clock, events, d) && ClockAfterRun(clock, events) <= end
    requires forall e <- events :: !e.DoSetRate?
    ensures d.mode == FixedRate && !d.probe.active && d.targetRate == c.targetRate
    ensures Integrated(d, end) == Integrated(c, end)
    decreases |events|
  {
    if events == [] {
    } else {
      var b, now := Apply(c, events[0]), ClockAfter(events[0]);
      StepGood(c, clock, events[0]);
      FixedRateStep(c, events[0]);
      RunTakesTime(b, now, events[1..], d);
      FixedRatePours(c, clock, events[0], end);
      FixedRateStays(b, now, events[1..], d, end);
    }
  }

  /** Until the next call of SetFixedRate the rate stays, and every window earns exactly its length at that rate. */
  lemma FixedRatePaces(c: Controller, clock: int, t: int, events: seq<Event>, d: Controller, end: int)
    requires Reachable(c, clock) && clock <= t && Run(c, t, events, d) && ClockAfterRun(t, events) <= end
    requires c.mode == FixedRate && forall e <- events :: !e.DoSetRate?
    ensures d.targetRate == c.targetRate && forall u :: RateAt(d, u) == c.targetRate
    ensures Integrated(d, end) - Integrated(c, t) == Credit(end - t, c.targetRate)
  {
    ReachableGood(c, clock);
    GoodLater(c, clock, t);
    FixedRateStays(c, t, events, d, end);
    RunTakesTime(c, t, events, d);
    IntegratedOverGap(c, t, end);
    NoProbeIntegral(c, t, end);
  }

  lemma NoProbeIntegral(c: Controller, t: int, end: int)
    requires !c.probe.active && t <= end
    ensures RateIntegral(c, t, end) == Credit(end - t, c.targetRate)
  {
    assert Credit(0, c.targetRate) == 0.0;
  }

  // ---- what an observation teaches ----

  /** A snapshot that is neither rejected nor the first of an epoch. */
  ghost predicate Follows(c: Controller, s: Snapshot) {
    && c.mode == Adaptive && c.haveSnapshot && s.at > c.previous.at && !WentBack(c, s)
    && s.minRTT >= 0 && s.smoothedRTT >= 0 && s.idle >= 0
  }

  /** The shortest interval that makes a sample: a quarter of the round trip, from 10 to 250 milliseconds. */
  ghost function SampleWindow(minRTT: int): int {
    Max(10_000_000, Min(250_000_000, minRTT / 4))
  }

  ghost predicate Mature(c: Controller, s: Snapshot) { s.at - c.previous.at >= SampleWindow(s.minRTT) }

  /** The application was silent for a whole window, and for most of the interval. */
  ghost predicate MostlyIdle(c: Controller, s: Snapshot) {
    s.idle - c.previous.idle >= SampleWindow(s.minRTT) && s.idle - c.previous.idle >= (s.at - c.previous.at) / 2
  }

  /** A complete delivery sample. */
  ghost predicate Teaches(c: Controller, s: Snapshot) {
    && Follows(c, s) && Mature(c, s) && !MostlyIdle(c, s)
    && s.sent > c.previous.sent && s.minRTT > 0 && s.smoothedRTT > 0
  }

  ghost function SentSince(c: Controller, s: Snapshot): int { s.sent - c.previous.sent }

  /** Losses count against this interval, but never for more than was sent in it. */
  ghost function LostSince(c: Controller, s: Snapshot): int { Max(0, Min(s.lost - c.previous.lost, SentSince(c, s))) }

  /** At least half of the time since the last observation went into waiting for tokens. */
  ghost predicate WasLimited(c: Controller, now: int) {
    var observed, paced := now - c.sleep.previousObservation, PacingTime(c.sleep, now) - c.sleep.previousTotal;
    observed > 0 && paced > 0 && paced >= observed / 2
  }

  /** `n` is `y` rounded, half up. */
  predicate Nearest(n: int, y: real) { n as real - 0.5 <= y < n as real + 0.5 }

  /** Only the bucket and the probe differ. */
  ghost predicate SameLearned(c: Controller, d: Controller) {
    && d.sleep == c.sleep && d.samples == c.samples && d.targetRate == c.targetRate && d.mode == c.mode
    && d.previous == c.previous && d.haveSnapshot == c.haveSnapshot
    && d.initialRate == c.initialRate && d.minimumRate == c.minimumRate && d.maximumRate == c.maximumRate
    && d.profile == c.profile && d.burst == c.burst
  }

  lemma RefillTeachesNothing(c: Controller, now: int)
    ensures SameLearned(c, Refill(c, now))
  {
  }

  lemma AbortTeachesNothing(c: Controller, now: int)
    ensures SameLearned(c, Abort(c, now))
  {
  }

  lemma InterruptedTeachesNothing(c: Controller, s: Snapshot, now: int)
    ensures SameLearned(c, Interrupted(c, s, now))
  {
    RefillTeachesNothing(c, now);
    AbortTeachesNothing(Refill(c, now), now);
  }

  lemma JudgeTeachesNothing(c: Controller, s: Snapshot, now: int, limited: bool, loss: bool)
    ensures SameLearned(c, Judge(c, s, now, limited, loss))
  {
    AbortTeachesNothing(c, now);
  }

  lemma ConsiderTeachesNothing(c: Controller, s: Snapshot, capacity: real, now: int)
    ensures SameLearned(c, Consider(c, s, capacity, now))
  {
  }

  lemma ObserveProbeTeachesNothing(c: Controller, s: Snapshot, now: int, limited: bool, loss: bool)
    ensures SameLearned(c, ObserveProbe(c, s, now, limited, loss))
  {
    JudgeTeachesNothing(c, s, now, limited, loss);
    var d := c.(probe := CountEligible(c.probe, s.smoothedRTT, now));
    ConsiderTeachesNothing(d, s, Estimate(c.initialRate as real, c.samples), now);
  }

  lemma AdoptTakesEffect(c: Controller, s: Snapshot, samples: seq<real>, target: int, now: int, later: int,
                         limited: bool, loss: bool)
    ensures var d := Adopt(c, s, samples, target, now, later, limited, loss);
            d.targetRate == target && d.samples == samples && d.previous == c.previous
  {
    ObserveProbeTeachesNothing(SetTargetRate(c.(samples := samples), target, later), s, now, limited, loss);
  }

  lemma WindowIsStable(minRTT: int)
    requires minRTT >= 0
    ensures StableSampleWindow(minRTT) == SampleWindow(minRTT)
  {
  }

  /** A complete sample goes through Learn. */
  lemma TeachingLearns(c: Controller, s: Snapshot, now: int, later: int)
    requires Teaches(c, s)
    ensures var e, m := Record(Interrupted(c, s, now), s, now), Measure(c.sleep, c.previous, s, now);
      && m.sentDelta == SentSince(c, s) > 0 && m.elapsed == s.at - c.previous.at > 0
      && LostBytes(m) == LostSince(c, s) && (m.limited <==> WasLimited(c, now))
      && Digest(c, s, now, later) == Learn(e, s, m, now, later)
  {
    InterruptedTeachesNothing(c, s, now);
    WindowIsStable(s.minRTT);
  }

  lemma RateIsQuotient(m: Sample)
    requires m.elapsed > 0
    ensures DeliveredRate(m) * m.elapsed as real == (m.sentDelta - LostBytes(m)) as real * 1_000_000_000.0
  {
  }

  lemma RoundsToNearest(low: int, high: int, target: real)
    ensures Nearest(Clamp(low, high, target), MaxReal(low as real, MinReal(high as real, target)))
  {
  }

  lemma RatioOf(lost: int, sent: int, threshold: real)
    requires sent > 0 && lost as real <= threshold * sent as real
    ensures lost as real / sent as real <= threshold
  {
    var x := lost as real / sent as real;
    assert x * sent as real == lost as real;
    if x > threshold { StrictlyOrdered(threshold, x, sent as real); }
  }

  /** What the settings, the estimate and this interval ask for. */
  ghost function Aim(c: Controller, estimate: real, s: Snapshot): real
    requires SentSince(c, s) > 0 && s.minRTT > 0 && s.smoothedRTT > 0
  {
    Target(SettingsFor(c.profile), estimate, LostSince(c, s) as real / SentSince(c, s) as real, s.minRTT, s.smoothedRTT)
  }

  /** Neither a grown queue nor noticeable loss. */
  ghost predicate IsClean(c: Controller, s: Snapshot) {
    var k := SettingsFor(c.profile);
    && s.smoothedRTT as real <= k.rttThreshold * s.minRTT as real
    && LostSince(c, s) as real <= k.lossThreshold * SentSince(c, s) as real
  }

  /** The aim lies between the floored and the plain gain over the estimate, and is the latter on a clean path. */
  ghost predicate AimsWithin(c: Controller, s: Snapshot, estimate: real, aim: real) {
    var k := SettingsFor(c.profile);
    && Delayed(k, estimate, k.minimumRTTFactor) * k.minimumLossFactor <= aim <= estimate * k.pacingGain
    && (IsClean(c, s) ==> aim == estimate * k.pacingGain)
  }

  lemma AimIsWithin(c: Controller, estimate: real, s: Snapshot)
    requires SentSince(c, s) > 0 && s.minRTT > 0 && s.smoothedRTT > 0 && estimate >= 0.0
    ensures AimsWithin(c, s, estimate, Aim(c, estimate, s))
  {
    var k, loss := SettingsFor(c.profile), LostSince(c, s) as real / SentSince(c, s) as real;
    TargetWithinFactors(k, estimate, loss, s.minRTT, s.smoothedRTT);
    if IsClean(c, s) {
      RatioOf(LostSince(c, s), SentSince(c, s), k.lossThreshold);
      RatioOf(s.smoothedRTT, s.minRTT, k.rttThreshold);
      CleanPathTarget(k, estimate, loss, s.minRTT, s.smoothedRTT);
    }
  }

  lemma LearnTakesEffect(c: Controller, s: Snapshot, m: Sample, now: int, later: int)
    requires m.sentDelta > 0 && m.elapsed > 0 && s.minRTT > 0 && s.smoothedRTT > 0
    ensures var d := Learn(c, s, m, now, later);
            d.targetRate == NewTarget(c, s, m) && d.samples == NewSamples(c, m) && d.previous == c.previous
  {
    AdoptTakesEffect(c, s, NewSamples(c, m), NewTarget(c, s, m), now, later, m.limited, LostBytes(m) != 0);
  }

  // ---- no delivery rate is negative ----

  ghost predicate NonNegative(samples: seq<real>) { forall x <- samples :: x >= 0.0 }

  lemma DigestNonNegative(c: Controller, s: Snapshot, now: int, later: int)
    requires NonNegative(c.samples)
    requires s.at > c.previous.at && s.sent >= c.previous.sent && s.minRTT >= 0 && s.smoothedRTT >= 0
    ensures NonNegative(Digest(c, s, now, later).samples)
  {
    InterruptedTeachesNothing(c, s, now);
    var d := Interrupted(c, s, now);
    var e, m := Record(d, s, now), Measure(d.sleep, c.previous, s, now);
    AbortTeachesNothing(e, now);
    DigestIsOneOf(c, s, now, later);
    if m.sentDelta > 0 && m.elapsed > 0 && s.minRTT > 0 && s.smoothedRTT > 0 {
      LearnTakesEffect(e, s, m, now, later);
    }
  }

  /** Only observations touch the samples. */
  lemma OthersTeachNothing(c: Controller, e: Event)
    requires !e.DoObserve?
    ensures Apply(c, e).samples == c.samples && Apply(c, e).initialRate == c.initialRate
  {
    match e
    case DoAttempt(amount, now, asleep) => RefillTeachesNothing(c, now);
    case DoWake(now) =>
    case DoRefund(amount, now) => RefillTeachesNothing(c, now);
    case DoSetRate(rate, now) => RefillTeachesNothing(c, now);
  }

  lemma StepNonNegative(c: Controller, e: Event)
    requires NonNegative(c.samples)
    ensures NonNegative(Apply(c, e).samples)
  {
    if e.DoObserve? {
      var s := Stamped(e.snapshot, e.t.t0);
      if Follows(c, s) { DigestNonNegative(c, s, e.t.t1, e.t.t2); }
    } else {
      OthersTeachNothing(c, e);
    }
  }

  lemma {:induction false} RunNonNegative(c: Controller, clock: int, events: seq<Event>, d: Controller)
    requires NonNegative(c.samples) && Run(c, clock, events, d)
    ensures NonNegative(d.samples)
    decreases |events|
  {
    if events == [] {
    } else {
      StepNonNegative(c, events[0]);
      RunNonNegative(Apply(c, events[0]), ClockAfter(events[0]), events[1..], d);
    }
  }

  lemma SamplesNonNegative(c: Controller, clock: int)
    requires Reachable(c, clock)
    ensures NonNegative(c.samples)
  {
    var k: Config, now: int, events :|
      Normalized(k) && Run(New(k, now), now, events, c) && clock == ClockAfterRun(now, events);
    RunNonNegative(New(k, now), now, events, c);
  }

  lemma EstimateNonNegative(initialRate: real, samples: seq<real>)
    requires initialRate >= 0.0 && NonNegative(samples)
    ensures Estimate(initialRate, samples) >= 0.0
  {
    if samples != [] {
      var recent := Recent(samples);
      var i :| 0 <= i < |recent| && recent[i] == MaxOf(recent);
      assert recent[i] == samples[|samples| - |recent| + i] && recent[i] in samples;
    }
  }

  /** The rate of what was delivered is among the samples as the estimator takes it. */
  ghost predicate Measured(c: Controller, s: Snapshot, now: int, samples: seq<real>, rate: real) {
    && rate * (s.at - c.previous.at) as real == (SentSince(c, s) - LostSince(c, s)) as real * 1_000_000_000.0
    && samples == Accept(c.initialRate as real, c.samples, rate, WasLimited(c, now))
  }

  /** The target rate is the aim over the new estimate, within the configured range. */
  ghost predicate Aimed(c: Controller, s: Snapshot, samples: seq<real>, target: int, aim: real)
    requires SentSince(c, s) > 0 && s.minRTT > 0 && s.smoothedRTT > 0
  {
    && aim == Aim(c, Estimate(c.initialRate as real, samples), s)
    && Nearest(target, MaxReal(c.minimumRate as real, MinReal(c.maximumRate as real, aim)))
  }

  lemma LearnAims(c: Controller, e: Controller, s: Snapshot, m: Sample) returns (aim: real)
    requires s.minRTT > 0 && s.smoothedRTT > 0
    requires m.sentDelta == SentSince(c, s) > 0 && m.elapsed > 0 && LostBytes(m) == LostSince(c, s)
    requires e.initialRate == c.initialRate && e.profile == c.profile
    requires e.minimumRate == c.minimumRate && e.maximumRate == c.maximumRate
    ensures Aimed(c, s, NewSamples(e, m), NewTarget(e, s, m), aim)
  {
    aim := Aim(c, Estimate(c.initialRate as real, NewSamples(e, m)), s);
    RoundsToNearest(c.minimumRate, c.maximumRate, aim);
    assert NewTarget(e, s, m) == Clamp(c.minimumRate, c.maximumRate, aim);
  }

  lemma LearnMeasures(c: Controller, e: Controller, s: Snapshot, m: Sample, now: int) returns (rate: real)
    requires m.sentDelta == SentSince(c, s) > 0 && m.elapsed == s.at - c.previous.at > 0
    requires LostBytes(m) == LostSince(c, s) && (m.limited <==> WasLimited(c, now))
    requires e.samples == c.samples && e.initialRate == c.initialRate
    ensures Measured(c, s, now, NewSamples(e, m), rate)
  {
    RateIsQuotient(m);
    rate := DeliveredRate(m);
  }

  lemma DigestTeaches(c: Controller, s: Snapshot, now: int, later: int) returns (rate: real, aim: real)
    requires Teaches(c, s)
    ensures var d := Digest(c, s, now, later);
            Measured(c, s, now, d.samples, rate) && Aimed(c, s, d.samples, d.targetRate, aim) && d.previous == s
  {
    var e, m := Record(Interrupted(c, s, now), s, now), Measure(c.sleep, c.previous, s, now);
    InterruptedTeachesNothing(c, s, now);
    TeachingLearns(c, s, now, later);
    LearnTakesEffect(e, s, m, now, later);
    rate := LearnMeasures(c, e, s, m, now);
    aim := LearnAims(c, e, s, m);
  }

  lemma FollowingIsDigested(c: Controller, given: Snapshot, t: Readings)
    requires Follows(c, Stamped(given, t.t0))
    ensures Observe(c, given, t) == Digest(c, Stamped(given, t.t0), t.t1, t.t2)
  {
  }

  lemma AimedWithin(c: Controller, s: Snapshot, samples: seq<real>, target: int, aim: real)
    requires SentSince(c, s) > 0 && s.minRTT > 0 && s.smoothedRTT > 0 && c.initialRate >= 0 && NonNegative(samples)
    requires Aimed(c, s, samples, target, aim)
    ensures AimsWithin(c, s, Estimate(c.initialRate as real, samples), aim)
  {
    EstimateNonNegative(c.initialRate as real, samples);
    AimIsWithin(c, Estimate(c.initialRate as real, samples), s);
  }

  /**
   * After a complete sample the controller has learned the rate of what was delivered, and the target rate in force is
   * the aim over the new estimate: between the floored and the plain gain, and within the configured range.
   */
  lemma ObservationTeaches(c: Controller, clock: int, given: Snapshot, t: Readings) returns (rate: real, aim: real)
    requires Reachable(c, clock) && Enabled(c, clock, DoObserve(given, t)) && Teaches(c, Stamped(given, t.t0))
    ensures var s, d := Stamped(given, t.t0), Apply(c, DoObserve(given, t));
      && Measured(c, s, t.t1, d.samples, rate) && Aimed(c, s, d.samples, d.targetRate, aim) && d.previous == s
      && AimsWithin(c, s, Estimate(c.initialRate as real, d.samples), aim)
  {
    var s := Stamped(given, t.t0);
    var d := Digest(c, s, t.t1, t.t2);
    rate, aim := DigestTeaches(c, s, t.t1, t.t2);
    FollowingIsDigested(c, given, t);
    ReachableGood(c, clock);
    SamplesNonNegative(c, clock);
    DigestNonNegative(c, s, t.t1, t.t2);
    AimedWithin(c, s, d.samples, d.targetRate, aim);
  }

  /** The first snapshot of an epoch: a counter went back. */
  ghost predicate Restarts(c: Controller, s: Snapshot) {
    && c.mode == Adaptive && c.haveSnapshot && s.at > c.previous.at && WentBack(c, s)
    && s.minRTT >= 0 && s.smoothedRTT >= 0 && s.idle >= 0
  }

  lemma EpochBegins(c: Controller, s: Snapshot, t1: int, t2: int, t3: int)
    ensures var d := NewEpoch(c, s, t1, t2, t3);
      d.targetRate == c.initialRate && d.samples == [] && d.previous == s && d.probe == NO_PROBE
  {
    var e := ResetProbe(Record(c, s, t1).(samples := []), t2);
    RefillTeachesNothing(Record(c, s, t1).(samples := []), t2);
    RefillTeachesNothing(e, t3);
    NothingToExpire(e, t3);
  }

  lemma NothingToExpire(c: Controller, now: int)
    requires !c.probe.active && !c.probe.pending
    ensures Refill(c, now).probe == c.probe
  {
  }

  /** When a counter goes back the controller forgets what it learned and starts again at the initial rate. */
  lemma NewEpochRestarts(c: Controller, clock: int, given: Snapshot, t: Readings)
    requires Reachable(c, clock) && Enabled(c, clock, DoObserve(given, t)) && Restarts(c, Stamped(given, t.t0))
    ensures var d := Apply(c, DoObserve(given, t));
      && d.targetRate == c.initialRate && (forall u :: RateAt(d, u) == c.initialRate)
      && d.samples == [] && d.probe == NO_PROBE && d.previous == Stamped(given, t.t0)
  {
    EpochBegins(c, Stamped(given, t.t0), t.t1, t.t2, t.t3);
  }

  /** Any other observation teaches nothing.  It is the new baseline if it is the first or closes an interval. */
  lemma OtherObservationsTeachNothing(c: Controller, clock: int, given: Snapshot, t: Readings)
    requires Reachable(c, clock) && Enabled(c, clock, DoObserve(given, t))
    requires var s := Stamped(given, t.t0); !Teaches(c, s) && !Restarts(c, s)
    ensures var s, d := Stamped(given, t.t0), Apply(c, DoObserve(given, t));
      && d.targetRate == c.targetRate && d.samples == c.samples
      && (Rejected(c, given, t) || c.mode != Adaptive ==> d == c)
      && (!Rejected(c, given, t) && c.mode == Adaptive ==>
            d.haveSnapshot && d.previous == if !c.haveSnapshot || Mature(c, s) then s else c.previous)
  {
    var s := Stamped(given, t.t0);
    if Follows(c, s) {
      FollowingIsDigested(c, given, t);
      InterruptedTeachesNothing(c, s, t.t1);
      AbortTeachesNothing(Record(Interrupted(c, s, t.t1), s, t.t1), t.t1);
      OthersSettle(c, s, t.t1, t.t2);
    }
  }

  lemma OthersSettle(c: Controller, s: Snapshot, now: int, later: int)
    requires Follows(c, s) && !Teaches(c, s)
    ensures var d := Interrupted(c, s, now);
            Digest(c, s, now, later) == if Mature(c, s) then Abort(Record(d, s, now), now) else d
  {
    InterruptedTeachesNothing(c, s, now);
    WindowIsStable(s.minRTT);
  }

  // ---- a probe's life ----

  /** The largest whole rate that neither limit nor prudence forbids. */
  ghost predicate IsProbeRate(c: PlanInput, capacity: real, rate: int) {
    var gain := if c.profile == Aggressive then 1.50 else 1.25;
    var top := MinReal(c.maximumRate as real, MinReal(capacity * gain, 2.0 * c.targetRate as real));
    rate as real <= top < rate as real + 1.0
  }

  /** The least whole budget for two bursts and two sample windows at the probe's rate. */
  ghost predicate IsBudget(c: PlanInput, rate: int, window: int, budget: int) {
    var least := MaxReal(2.0 * c.burst as real, 2.0 * Credit(window, rate));
    budget as real - 1.0 < least <= budget as real
  }

  /** The least whole time in which the rate earns the budget. */
  ghost predicate IsService(rate: int, budget: int, service: int) {
    Credit(service, rate) >= budget as real && Credit(service - 1, rate) < budget as real
  }

  /** A probe that could show something: faster than the target and the estimate, within a megabyte and two seconds. */
  ghost predicate Worthwhile(c: PlanInput, s: Snapshot, capacity: real, rate: int, budget: int, service: int) {
    var window := SampleWindow(s.minRTT);
    && IsProbeRate(c, capacity, rate) && rate as real > capacity && rate > c.targetRate
    && IsBudget(c, rate, window, budget) && budget <= 1_048_576
    && IsService(rate, budget, service) && service + window <= 2_000_000_000
  }

  lemma RateIsFloor(c: PlanInput, capacity: real, rate: int)
    ensures IsProbeRate(c, capacity, rate) <==> ProbeRate(c, capacity) == rate
  {
  }

  lemma BudgetIsCeiling(c: PlanInput, rate: int, window: int, budget: int)
    ensures IsBudget(c, rate, window, budget) <==> ProbeBudget(c, rate, window) == budget
  {
    Doubled(rate as real, window as real);
  }

  lemma Doubled(rate: real, window: real)
    ensures 2.0 * (window * rate / 1_000_000_000.0) == 2.0 * rate * (window / 1_000_000_000.0)
  {
  }

  lemma ServiceIsDuration(rate: int, budget: int, service: int)
    requires rate > 0 && budget > 0 && service < MAX_INT64
    ensures IsService(rate, budget, service) <==> DurationForBytes(budget as real, rate) == service
  {
    var q := budget as real / rate as real;
    var x := q * 1_000_000_000.0;
    assert q * rate as real == budget as real;
    RatioPositive(q, rate as real, budget as real);
    Rescale(q, rate as real);
    Earned(service, rate, x, budget as real);
    Earned(service - 1, rate, x, budget as real);
    CeilBounds(x);
  }

  /** The plan for a rate, a budget and a service time. */
  ghost function PlanFor(s: Snapshot, rate: int, budget: int, service: int): Plan {
    var window := SampleWindow(s.minRTT);
    Plan(rate, budget, Max(Max(100_000_000, service + window), 2 * Min(s.smoothedRTT, 1_000_000_000)),
         Max(1_000_000_000, 8 * Min(s.smoothedRTT, 2_000_000_000)), window)
  }

  lemma ScheduleSteps(s: Snapshot, rate: int, budget: int, service: int)
    requires s.minRTT >= 0 && rate > 0 && service == DurationForBytes(budget as real, rate)
    ensures Scheduled(s, rate, budget) ==
      if budget > 1_048_576 || service + SampleWindow(s.minRTT) > 2_000_000_000 then NoPlan
      else PlanFor(s, rate, budget, service)
  {
    WindowIsStable(s.minRTT);
  }

  /** Exactly the worthwhile probes are planned. */
  lemma WorthwhileIsPlanned(c: PlanInput, s: Snapshot, capacity: real, rate: int, budget: int, service: int)
    requires s.minRTT >= 0 && c.burst > 0 && c.targetRate >= 0 && Worthwhile(c, s, capacity, rate, budget, service)
    ensures MakePlan(c, s, capacity) == PlanFor(s, rate, budget, service)
  {
    RateIsFloor(c, capacity, rate);
    BudgetIsCeiling(c, rate, SampleWindow(s.minRTT), budget);
    ServiceIsDuration(rate, budget, service);
    ScheduleSteps(s, rate, budget, service);
    WindowIsStable(s.minRTT);
  }

  lemma PlanIsWorthwhile(c: PlanInput, s: Snapshot, capacity: real) returns (service: int)
    requires s.minRTT >= 0 && c.burst > 0 && c.targetRate >= 0 && MakePlan(c, s, capacity).Plan?
    ensures var plan := MakePlan(c, s, capacity);
      && Worthwhile(c, s, capacity, plan.rate, plan.budget, service)
      && plan == PlanFor(s, plan.rate, plan.budget, service)
  {
    var rate := ProbeRate(c, capacity);
    var budget := ProbeBudget(c, rate, SampleWindow(s.minRTT));
    service := DurationForBytes(budget as real, rate);
    WindowIsStable(s.minRTT);
    ScheduleSteps(s, rate, budget, service);
    RateIsFloor(c, capacity, rate);
    BudgetIsCeiling(c, rate, SampleWindow(s.minRTT), budget);
    ServiceIsDuration(rate, budget, service);
  }

  /** How many eligible samples in a row there are after one more; a grown queue starts the count again. */
  ghost function Streak(p: Probe, rtt: int): int {
    if p.eligibleSamples == 0 || RttRose(p, rtt) then 1
    else if p.eligibleSamples < 3 then p.eligibleSamples + 1
    else p.eligibleSamples
  }

  ghost function StreakSince(p: Probe, rtt: int, now: int): int {
    if p.eligibleSamples == 0 || RttRose(p, rtt) then now else p.eligibleSince
  }

  /** A sample speaks for a probe: no loss, limited by pacing, and the target well below what was once delivered. */
  ghost predicate Eligible(d: Controller, limited: bool, loss: bool) {
    && d.profile != Conservative && !loss && limited && d.samples != []
    && d.targetRate as real < 0.95 * Estimate(d.initialRate as real, d.samples)
  }

  /** The third eligible sample in a row, a second after the first and past the back-off. */
  ghost predicate Due(p: Probe, rtt: int, now: int) {
    Streak(p, rtt) >= 3 && now - StreakSince(p, rtt, now) >= SECOND && now >= p.nextAt
  }

  ghost function PlanOf(d: Controller, s: Snapshot): Plan {
    MakePlan(PlanInput(d.profile, d.maximumRate, d.targetRate, d.burst), s, Estimate(d.initialRate as real, d.samples))
  }

  /** The probe runs as planned, from `now`. */
  ghost predicate Runs(d: Controller, s: Snapshot, now: int) {
    var p, plan := d.probe, PlanOf(d, s);
    && p.active && plan.Plan? && p.rate == plan.rate && p.remaining == plan.budget as real && p.window == plan.window
    && p.deadline == now + plan.duration && p.gap == plan.gap && p.eligibleSamples == 0
    && p.entryCapacity == Estimate(d.initialRate as real, d.samples) && p.entryRTT == s.smoothedRTT
  }

  /** What becomes of `p`, when no probe runs, with a sample that leaves the controller in state `d`. */
  ghost predicate Considered(p: Probe, d: Controller, s: Snapshot, now: int, limited: bool, loss: bool) {
    && !d.probe.pending && d.probe.nextAt == p.nextAt && d.probe.backoff == p.backoff
    && (d.probe.active <==> Eligible(d, limited, loss) && Due(p, s.smoothedRTT, now) && PlanOf(d, s).Plan?)
    && (d.probe.active ==> Runs(d, s, now))
    && (!d.probe.active && Eligible(d, limited, loss) ==>
          && d.probe.eligibleSamples == Streak(p, s.smoothedRTT)
          && d.probe.eligibleSince == StreakSince(p, s.smoothedRTT, now))
    && (d.profile != Conservative && !Eligible(d, limited, loss) ==> d.probe.eligibleSamples == 0)
  }

  lemma CountIsStreak(p: Probe, rtt: int, now: int)
    requires !p.active && !p.pending && p.eligibleSamples >= 0
    ensures var q := CountEligible(p, rtt, now);
      && q.eligibleSamples == Streak(p, rtt) && q.eligibleSince == StreakSince(p, rtt, now)
      && q.nextAt == p.nextAt && q.backoff == p.backoff && !q.active && !q.pending
  {
  }

  lemma ConsiderIsExact(c: Controller, s: Snapshot, now: int)
    requires !c.probe.active && !c.probe.pending
    ensures var d := Consider(c, s, Estimate(c.initialRate as real, c.samples), now);
      var due := c.probe.eligibleSamples >= 3 && now - c.probe.eligibleSince >= SECOND && now >= c.probe.nextAt;
      && SameLearned(c, d) && !d.probe.pending && d.probe.nextAt == c.probe.nextAt && d.probe.backoff == c.probe.backoff
      && (if due && PlanOf(c, s).Plan? then Runs(d, s, now) else d == c)
  {
  }

  lemma NoProbeConsidered(c: Controller, s: Snapshot, now: int, limited: bool, loss: bool)
    requires !c.probe.active && !c.probe.pending && c.probe.eligibleSamples >= 0
    ensures Considered(c.probe, ObserveProbe(c, s, now, limited, loss), s, now, limited, loss)
  {
    if Eligible(c, limited, loss) {
      CountIsStreak(c.probe, s.smoothedRTT, now);
      var e := c.(probe := CountEligible(c.probe, s.smoothedRTT, now));
      ConsiderIsExact(e, s, now);
      EligibleConsidered(c, e, s, now, limited, loss);
    } else {
      NothingConsidered(c, s, now, limited, loss);
    }
  }

  lemma NothingConsidered(c: Controller, s: Snapshot, now: int, limited: bool, loss: bool)
    requires !c.probe.active && !c.probe.pending && !Eligible(c, limited, loss)
    ensures Considered(c.probe, ObserveProbe(c, s, now, limited, loss), s, now, limited, loss)
  {
  }

  lemma EligibleConsidered(c: Controller, e: Controller, s: Snapshot, now: int, limited: bool, loss: bool)
    requires !c.probe.active && !c.probe.pending && Eligible(c, limited, loss)
    requires e == c.(probe := CountEligible(c.probe, s.smoothedRTT, now))
    ensures ObserveProbe(c, s, now, limited, loss) == Consider(e, s, Estimate(e.initialRate as real, e.samples), now)
  {
  }

  /** An interruption starts the count again, as the sample itself would. */
  lemma InterruptedConsidered(p: Probe, d: Controller, s: Snapshot, now: int, limited: bool, loss: bool)
    requires !p.active && !p.pending && (loss || RttRose(p, s.smoothedRTT))
    requires Considered(p.(eligibleSamples := 0), d, s, now, limited, loss)
    ensures Considered(p, d, s, now, limited, loss)
  {
  }

  /** The part of Learn that looks at the probe. */
  lemma LearnObserves(c: Controller, s: Snapshot, m: Sample, now: int, later: int)
    requires m.sentDelta > 0 && m.elapsed > 0 && s.minRTT > 0 && s.smoothedRTT > 0
    ensures var x := SetTargetRate(c.(samples := NewSamples(c, m)), NewTarget(c, s, m), later);
      && Learn(c, s, m, now, later) == ObserveProbe(x, s, now, m.limited, LostBytes(m) != 0)
      && x.probe == Refill(c.(samples := NewSamples(c, m)), later).probe
  {
  }

  /** Nothing in the probe's state is due by `now`. */
  ghost predicate Undisturbed(p: Probe, now: int) {
    (p.active ==> !p.pending && now < p.deadline) && (p.pending ==> now < p.outcomeDeadline)
  }

  lemma RefillKeepsProbe(c: Controller, now: int)
    requires Undisturbed(c.probe, now)
    ensures Refill(c, now).probe == c.probe
  {
  }

  /**
   * While no probe runs, each complete sample extends or ends the row of eligible ones; a probe starts exactly with the
   * third of a row, a second after its first and past the back-off, if one is worthwhile.
   */
  lemma EligibleSamplesStartProbe(c: Controller, clock: int, given: Snapshot, t: Readings)
    requires Reachable(c, clock) && Enabled(c, clock, DoObserve(given, t)) && Teaches(c, Stamped(given, t.t0))
    requires !c.probe.active && !c.probe.pending
    ensures var s := Stamped(given, t.t0);
      Considered(c.probe, Apply(c, DoObserve(given, t)), s, t.t1, WasLimited(c, t.t1), LostSince(c, s) > 0)
  {
    var s := Stamped(given, t.t0);
    ReachableGood(c, clock);
    FollowingIsDigested(c, given, t);
    TeachingLearns(c, s, t.t1, t.t2);
    var e, m := Record(Interrupted(c, s, t.t1), s, t.t1), Measure(c.sleep, c.previous, s, t.t1);
    LearnObserves(e, s, m, t.t1, t.t2);
    RefillKeepsProbe(c, t.t1);
    RefillKeepsProbe(e.(samples := NewSamples(e, m)), t.t2);
    NoProbeConsidered(SetTargetRate(e.(samples := NewSamples(e, m)), NewTarget(e, s, m), t.t2), s, t.t1, m.limited,
                      LostBytes(m) != 0);
    if s.lost > c.previous.lost || RttRose(c.probe, s.smoothedRTT) {
      InterruptedConsidered(c.probe, Apply(c, DoObserve(given, t)), s, t.t1, m.limited, LostBytes(m) != 0);
    }
  }

  /** The probe ended without showing more capacity: the next one waits, each time twice as long up to 16 seconds. */
  ghost predicate Failed(p: Probe, q: Probe, now: int) {
    && !q.active && !q.pending
    && q.backoff == Min(16_000_000_000, Max(2_000_000_000, 2 * p.backoff)) && q.nextAt == now + Max(p.gap, q.backoff)
  }

  /** The probe showed more capacity: nothing but the gap delays the next one. */
  ghost predicate Succeeded(p: Probe, q: Probe, now: int) {
    !q.active && !q.pending && q.backoff == 0 && q.nextAt == now + Max(p.gap, 0)
  }

  lemma AbortFails(c: Controller, now: int)
    requires c.probe.active || c.probe.pending
    ensures Failed(c.probe, Abort(c, now).probe, now) && Abort(c, now).probe.eligibleSamples == 0
  {
  }

  lemma JudgeIsExact(c: Controller, s: Snapshot, now: int, limited: bool)
    requires c.profile != Conservative && (c.probe.active || c.probe.pending) && !RttRose(c.probe, s.smoothedRTT)
    ensures var q := ObserveProbe(c, s, now, limited, false).probe;
      if Estimate(c.initialRate as real, c.samples) > c.probe.entryCapacity * 1.02 then Succeeded(c.probe, q, now)
      else if !limited then Failed(c.probe, q, now)
      else q == c.probe
  {
  }

  /** After an interruption the sample itself starts no probe. */
  lemma FailedStays(p: Probe, c: Controller, s: Snapshot, now: int, limited: bool, loss: bool)
    requires Failed(p, c.probe, now) && c.probe.eligibleSamples == 0
    ensures Failed(p, ObserveProbe(c, s, now, limited, loss).probe, now)
  {
    NoProbeConsidered(c, s, now, limited, loss);
  }

  lemma LearnAfterFailure(p: Probe, c: Controller, s: Snapshot, m: Sample, now: int, later: int)
    requires m.sentDelta > 0 && m.elapsed > 0 && s.minRTT > 0 && s.smoothedRTT > 0
    requires Failed(p, c.probe, now) && c.probe.eligibleSamples == 0
    ensures Failed(p, Learn(c, s, m, now, later).probe, now)
  {
    LearnObserves(c, s, m, now, later);
    RefillKeepsProbe(c.(samples := NewSamples(c, m)), later);
    FailedStays(p, SetTargetRate(c.(samples := NewSamples(c, m)), NewTarget(c, s, m), later), s, now, m.limited,
                LostBytes(m) != 0);
  }

  lemma LearnJudges(c: Controller, s: Snapshot, m: Sample, now: int, later: int)
    requires m.sentDelta > 0 && m.elapsed > 0 && s.minRTT > 0 && s.smoothedRTT > 0 && LostBytes(m) == 0
    requires c.profile != Conservative && (c.probe.active || c.probe.pending) && !RttRose(c.probe, s.smoothedRTT)
    requires Undisturbed(c.probe, later)
    ensures var d := Learn(c, s, m, now, later);
      if Estimate(c.initialRate as real, d.samples) > c.probe.entryCapacity * 1.02 then Succeeded(c.probe, d.probe, now)
      else if !m.limited then Failed(c.probe, d.probe, now)
      else d.probe == c.probe
  {
    LearnObserves(c, s, m, now, later);
    LearnTakesEffect(c, s, m, now, later);
    RefillKeepsProbe(c.(samples := NewSamples(c, m)), later);
    RefillTeachesNothing(c.(samples := NewSamples(c, m)), later);
    JudgeIsExact(SetTargetRate(c.(samples := NewSamples(c, m)), NewTarget(c, s, m), later), s, now, m.limited);
  }

  // ---- the conservative profile has no probes ----

  /** A probe that runs, or whose outcome is awaited, belongs to a profile that probes. */
  ghost predicate Probing(c: Controller) { c.probe.active || c.probe.pending ==> c.profile != Conservative }

  /** The profile stays, and so does the absence of probes under the conservative one. */
  ghost predicate KeepsProbing(c: Controller, d: Controller) { d.profile == c.profile && (Probing(c) ==> Probing(d)) }

  lemma RefillKeepsProbing(c: Controller, now: int)
    ensures KeepsProbing(c, Refill(c, now))
  {
  }

  lemma AttemptKeepsProbing(c: Controller, amount: int, now: int, asleep: int)
    ensures KeepsProbing(c, Attempt(c, amount, now, asleep))
  {
    RefillKeepsProbing(c, now);
    SpendKeepsProbing(YieldProbe(Refill(c, now), amount, now), amount, now, asleep);
  }

  lemma SpendKeepsProbing(c: Controller, amount: int, now: int, asleep: int)
    ensures KeepsProbing(c, Spend(c, amount, now, asleep))
  {
  }

  lemma EpochKeepsProbing(c: Controller, s: Snapshot, t: Readings)
    ensures KeepsProbing(c, NewEpoch(c, s, t.t1, t.t2, t.t3))
  {
    RefillKeepsProbing(Record(c, s, t.t1).(samples := []), t.t2);
    RefillKeepsProbing(ResetProbe(Record(c, s, t.t1).(samples := []), t.t2), t.t3);
  }

  lemma LearnKeepsProbing(c: Controller, s: Snapshot, m: Sample, now: int, later: int)
    requires m.sentDelta > 0 && m.elapsed > 0 && s.minRTT > 0 && s.smoothedRTT > 0
    ensures KeepsProbing(c, Learn(c, s, m, now, later))
  {
    LearnObserves(c, s, m, now, later);
    RefillKeepsProbing(c.(samples := NewSamples(c, m)), later);
    var x := SetTargetRate(c.(samples := NewSamples(c, m)), NewTarget(c, s, m), later);
    ObserveProbeTeachesNothing(x, s, now, m.limited, LostBytes(m) != 0);
  }

  lemma DigestKeepsProbing(c: Controller, s: Snapshot, now: int, later: int)
    requires Follows(c, s)
    ensures KeepsProbing(c, Digest(c, s, now, later))
  {
    RefillKeepsProbing(c, now);
    InterruptedTeachesNothing(c, s, now);
    var d := Interrupted(c, s, now);
    var e, m := Record(d, s, now), Measure(d.sleep, c.previous, s, now);
    AbortTeachesNothing(e, now);
    DigestIsOneOf(c, s, now, later);
    if m.sentDelta > 0 && m.elapsed > 0 && s.minRTT > 0 && s.smoothedRTT > 0 { LearnKeepsProbing(e, s, m, now, later); }
  }

  lemma StepKeepsProbing(c: Controller, e: Event)
    ensures KeepsProbing(c, Apply(c, e))
  {
    match e
    case DoAttempt(amount, now, asleep) => AttemptKeepsProbing(c, amount, now, asleep);
    case DoWake(now) =>
    case DoRefund(amount, now) => RefillKeepsProbing(c, now);
    case DoSetRate(rate, now) => RefillKeepsProbing(c, now);
    case DoObserve(given, t) =>
      var s := Stamped(given, t.t0);
      if Follows(c, s) {
        FollowingIsDigested(c, given, t);
        DigestKeepsProbing(c, s, t.t1, t.t2);
      } else if Restarts(c, s) {
        EpochKeepsProbing(c, s, t);
      }
  }

  lemma {:induction false} RunKeepsProbing(c: Controller, clock: int, events: seq<Event>, d: Controller)
    requires Run(c, clock, events, d)
    ensures KeepsProbing(c, d)
    decreases |events|
  {
    if events == [] {
    } else {
      StepKeepsProbing(c, events[0]);
      RunKeepsProbing(Apply(c, events[0]), ClockAfter(events[0]), events[1..], d);
    }
  }

  lemma ReachableProbing(c: Controller, clock: int)
    requires Reachable(c, clock)
    ensures Probing(c)
  {
    var k: Config, now: int, events :|
      Normalized(k) && Run(New(k, now), now, events, c) && clock == ClockAfterRun(now, events);
    RunKeepsProbing(New(k, now), now, events, c);
  }

  // ---- the outcome of a probe ----

  /** A probe is over at its deadline, and fails if nothing has been learned for a while after that. */
  lemma ProbesExpire(c: Controller, clock: int, now: int)
    requires Reachable(c, clock) && clock <= now
    ensures var q, ends := Refill(c, now).probe, c.probe.deadline + Max(250_000_000, 2 * c.probe.window);
      && (c.probe.active && c.probe.deadline <= now < ends ==> !q.active && q.pending && q.outcomeDeadline == ends)
      && (c.probe.active && ends <= now ==> Failed(c.probe, q, now))
      && (c.probe.pending && c.probe.outcomeDeadline <= now ==> Failed(c.probe, q, now))
      && (Undisturbed(c.probe, now) ==> q == c.probe)
  {
    ReachableGood(c, clock);
    if c.probe.active && c.probe.deadline <= now { Expires(c, now); }
    if Undisturbed(c.probe, now) { RefillKeepsProbe(c, now); }
  }

  lemma Expires(c: Controller, now: int)
    requires c.probe.active && c.probe.deadline <= now
    ensures var q, ends := Refill(c, now).probe, c.probe.deadline + Max(250_000_000, 2 * c.probe.window);
      if now < ends then !q.active && q.pending && q.outcomeDeadline == ends else Failed(c.probe, q, now)
  {
  }

  /**
   * A sample decides a probe that runs or awaits its outcome.  Loss or a growing queue fails it at once, complete
   * sample or not; silence fails it too.  Otherwise a complete sample ends it well if the estimate grew by two per
   * cent, fails it if pacing was not the limit, and lets it go on if it was.
   */
  lemma ProbeIsJudged(c: Controller, clock: int, given: Snapshot, t: Readings)
    requires Reachable(c, clock) && Enabled(c, clock, DoObserve(given, t)) && Follows(c, Stamped(given, t.t0))
    requires (c.probe.active || c.probe.pending) && Undisturbed(c.probe, t.t2)
    ensures var s, d := Stamped(given, t.t0), Apply(c, DoObserve(given, t));
      if s.lost > c.previous.lost || RttRose(c.probe, s.smoothedRTT) then Failed(c.probe, d.probe, t.t1)
      else if !Mature(c, s) then d.probe == c.probe
      else if !Teaches(c, s) then Failed(c.probe, d.probe, t.t1)
      else if Estimate(c.initialRate as real, d.samples) > c.probe.entryCapacity * 1.02
      then Succeeded(c.probe, d.probe, t.t1)
      else if !WasLimited(c, t.t1) then Failed(c.probe, d.probe, t.t1)
      else d.probe == c.probe
  {
    var s := Stamped(given, t.t0);
    ReachableProbing(c, clock);
    FollowingIsDigested(c, given, t);
    InterruptedTeachesNothing(c, s, t.t1);
    RefillKeepsProbe(c, t.t1);
    var d := Interrupted(c, s, t.t1);
    var e, m := Record(d, s, t.t1), Measure(c.sleep, c.previous, s, t.t1);
    var interrupted := s.lost > c.previous.lost || RttRose(c.probe, s.smoothedRTT);
    if interrupted { AbortFails(Refill(c, t.t1), t.t1); }
    if Teaches(c, s) {
      TeachingLearns(c, s, t.t1, t.t2);
      if interrupted { LearnAfterFailure(c.probe, e, s, m, t.t1, t.t2); } else { LearnJudges(e, s, m, t.t1, t.t2); }
    } else {
      OthersSettle(c, s, t.t1, t.t2);
      if !interrupted { AbortFails(e, t.t1); }
    }
  }
}