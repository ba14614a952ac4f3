/** What the bucket gives, as against what it withholds: it loses tokens only by overflowing, admits whatever it covers,
    and a call that fails has cost nothing. */
module PacerLaws {
  import opened Basics
  import opened Estimator
  import opened Pacer
  import opened PacerProofs

  // ---- the bucket loses nothing unless it is full ----

  /** A counter of the connection went back. */
  ghost predicate WentBack(c: Controller, s: Snapshot) { s.sent < c.previous.sent || s.idle < c.previous.idle }

  /** The clock reading at which a section refills first. */
  ghost function RefillsAt(c: Controller, e: Event): int {
    match e
    case DoAttempt(_, now, _) => now
    case DoWake(now) => now
    case DoRefund(_, now) => now
    case DoObserve(given, t) => if WentBack(c, Stamped(given, t.t0)) then t.t2 else t.t1
    case DoSetRate(_, now) => now
  }

  /** The account stands at `f` at some instant from `t` to `until`. */
  ghost predicate Passes(c: Controller, t: int, until: int, f: Account) {
    exists u :: t <= u <= until && f == AccountAt(c, u)
  }

  /** The account stands at `f` at some instant of the run, or after it up to `end`. */
  ghost predicate Visits(c: Controller, t: int, events: seq<Event>, end: int, f: Account)
    decreases |events|
  {
    if events == [] then Passes(c, t, end, f)
    else
      var d := Apply(c, events[0]);
      Passes(c, t, RefillsAt(c, events[0]), f) || Visits(d, Max(t, d.lastRefill), events[1..], end, f)
  }

  ghost predicate IsFull(a: Account) { a.tokens == a.burst as real }

  /** From `a` to `b` nothing is lost but what was admitted, unless the bucket overflows at `b`. */
  ghost predicate Overflows(a: Account, b: Account) {
    b.burst == a.burst && a.lastRefill <= b.lastRefill && (Potential(b) == Potential(a) || IsFull(b))
  }

  lemma FilledOverflows(c: Controller, t: int, now: int)
    requires Bucket(c) && c.lastRefill <= t <= now
    ensures Overflows(AccountAt(c, t), AccountAt(c, now))
  {
    FilledTwice(c, t, now);
  }

  lemma SetTargetAccount(c: Controller, rate: int, now: int)
    requires Bucket(c)
    ensures AccountOf(SetTargetRate(c, rate, now)) == AccountAt(c, now)
  {
    RefillAccount(c, now);
  }

  lemma AbortAccount(c: Controller, now: int)
    ensures AccountOf(Abort(c, now)) == AccountOf(c)
  {
  }

  lemma ObserveProbeAccount(c: Controller, s: Snapshot, now: int, limited: bool, loss: bool)
    ensures AccountOf(ObserveProbe(c, s, now, limited, loss)) == AccountOf(c)
  {
    JudgeAccount(c, s, now, limited, loss);
    var d := c.(probe := CountEligible(c.probe, s.smoothedRTT, now));
    ConsiderAccount(d, s, Estimate(c.initialRate as real, c.samples), now);
  }

  lemma JudgeAccount(c: Controller, s: Snapshot, now: int, limited: bool, loss: bool)
    ensures AccountOf(Judge(c, s, now, limited, loss)) == AccountOf(c)
  {
  }

  lemma ConsiderAccount(c: Controller, s: Snapshot, capacity: real, now: int)
    ensures AccountOf(Consider(c, s, capacity, now)) == AccountOf(c)
  {
  }

  lemma InterruptedAccount(c: Controller, s: Snapshot, now: int)
    requires Bucket(c)
    ensures AccountOf(Interrupted(c, s, now)) == AccountAt(c, now) && Bucket(Interrupted(c, s, now))
  {
    RefillAccount(c, now);
    AbortAccount(Refill(c, now), now);
    InterruptedNotRicher(c, s, now);
  }

  lemma AdoptAccount(c: Controller, s: Snapshot, samples: seq<real>, target: int, now: int, later: int,
                     limited: bool, loss: bool)
    requires Bucket(c)
    ensures Overflows(AccountOf(c), AccountOf(Adopt(c, s, samples, target, now, later, limited, loss)))
  {
    var d := c.(samples := samples);
    SetTargetAccount(d, target, later);
    ObserveProbeAccount(SetTargetRate(d, target, later), s, now, limited, loss);
  }

  lemma DigestOverflows(c: Controller, s: Snapshot, now: int, later: int)
    requires Bucket(c)
    requires s.at > c.previous.at && s.sent >= c.previous.sent && s.minRTT >= 0 && s.smoothedRTT >= 0
    ensures Overflows(AccountAt(c, now), AccountOf(Digest(c, s, now, later)))
  {
    InterruptedAccount(c, s, now);
    var d := Interrupted(c, s, now);
    var m := Measure(d.sleep, c.previous, s, now);
    var e := Record(d, s, now);
    AbortAccount(e, now);
    if m.sentDelta > 0 && m.elapsed > 0 && s.minRTT > 0 && s.smoothedRTT > 0 {
      AdoptAccount(e, s, NewSamples(e, m), NewTarget(e, s, m), now, later, m.limited, LostBytes(m) != 0);
    }
    DigestIsOneOf(c, s, now, later);
  }

  lemma NewEpochOverflows(c: Controller, s: Snapshot, t1: int, t2: int, t3: int)
    requires Bucket(c)
    ensures Overflows(AccountAt(c, t2), AccountOf(NewEpoch(c, s, t1, t2, t3)))
  {
    var d := Record(c, s, t1).(samples := []);
    SameFlowSameAccount(c, d, t2);
    RefillAccount(d, t2);
    RefillTokens(d, t2);
    SetTargetAccount(ResetProbe(d, t2), c.initialRate, t3);
  }

  lemma AttemptAccount(c: Controller, amount: int, now: int, asleep: int)
    requires Bucket(c)
    ensures Overflows(AccountAt(c, now), AccountOf(Attempt(c, amount, now, asleep)))
  {
    RefillAccount(c, now);
    var d := YieldProbe(Refill(c, now), amount, now);
    assert AccountOf(d) == AccountOf(Refill(c, now));
    SpendLosesNothing(d, amount, now, asleep);
  }

  lemma SpendLosesNothing(d: Controller, amount: int, now: int, asleep: int)
    ensures Overflows(AccountOf(d), AccountOf(Spend(d, amount, now, asleep)))
  {
  }

  lemma RefundOverflows(c: Controller, amount: int, now: int)
    requires Bucket(c) && amount > 0
    ensures Overflows(AccountAt(c, now), AccountOf(Refund(c, amount, now)))
  {
    RefillAccount(c, now);
    GiveBackOverflows(Refill(c, now), amount);
  }

  lemma GiveBackOverflows(c: Controller, amount: int)
    ensures Overflows(AccountOf(c), AccountOf(GiveBack(c, amount)))
  {
  }

  lemma ObserveOverflows(c: Controller, given: Snapshot, t: Readings)
    requires Bucket(c)
    ensures var d := Observe(c, given, t);
            SameFlow(c, d) || Overflows(AccountAt(c, RefillsAt(c, DoObserve(given, t))), AccountOf(d))
  {
    var s := Stamped(given, t.t0);
    if c.mode != Adaptive || Rejected(c, given, t) || !c.haveSnapshot {
    } else if WentBack(c, s) {
      NewEpochOverflows(c, s, t.t1, t.t2, t.t3);
    } else {
      DigestOverflows(c, s, t.t1, t.t2);
    }
  }

  /** A section lets the bucket be, or refills it first and then loses nothing unless the bucket overflows. */
  lemma SectionOverflows(c: Controller, clock: int, e: Event)
    requires Bucket(c) && Enabled(c, clock, e)
    ensures SameFlow(c, Apply(c, e)) || Overflows(AccountAt(c, RefillsAt(c, e)), AccountOf(Apply(c, e)))
  {
    match e
    case DoAttempt(amount, now, asleep) => AttemptAccount(c, amount, now, asleep);
    case DoWake(now) =>
    case DoRefund(amount, now) => if amount > 0 { RefundOverflows(c, amount, now); }
    case DoObserve(given, t) => ObserveOverflows(c, given, t);
    case DoSetRate(rate, now) => SetTargetAccount(c, rate, now);
  }

  lemma PassesFirst(c: Controller, t: int, events: seq<Event>, end: int, u: int)
    requires t <= u <= if events == [] then end else RefillsAt(c, events[0])
    ensures Visits(c, t, events, end, AccountAt(c, u))
  {
    if events == [] { assert Passes(c, t, end, AccountAt(c, u)); }
    else { assert Passes(c, t, RefillsAt(c, events[0]), AccountAt(c, u)); }
  }

  lemma RefillsInTime(c: Controller, clock: int, e: Event)
    requires Enabled(c, clock, e)
    ensures clock <= RefillsAt(c, e) <= ClockAfter(e)
  {
  }

  /** Where a loss shows in the run: at a full bucket. */
  ghost predicate Explains(c: Controller, t: int, events: seq<Event>, e: Account, end: int, full: Option<Account>) {
    match full
    case None => Potential(e) == Potential(AccountAt(c, t))
    case Some(f) => Visits(c, t, events, end, f) && IsFull(f) && f.burst == c.burst && Potential(e) == Potential(f)
  }

  lemma {:induction false} NothingLost(c: Controller, clock: int, t: int, events: seq<Event>, d: Controller, end: int)
    returns (full: Option<Account>)
    requires Good(c, clock) && c.lastRefill <= t <= clock && Run(c, clock, events, d)
    requires ClockAfterRun(clock, events) <= end
    ensures Explains(c, t, events, AccountAt(d, end), end, full)
    decreases |events|
  {
    if events == [] {
      FilledOverflows(c, t, end);
      PassesFirst(c, t, [], end, end);
      full := if Potential(AccountAt(c, end)) == Potential(AccountAt(c, t)) then None else Some(AccountAt(c, end));
    } else {
      var b, now := Apply(c, events[0]), ClockAfter(events[0]);
      StepGood(c, clock, events[0]);
      RefillsInTime(c, clock, events[0]);
      var later := NothingLost(b, now, Max(t, b.lastRefill), events[1..], d, end);
      if events[1..] != [] { RefillsInTime(b, now, events[1]); } else { RunTakesTime(b, now, [], d); }
      full := NothingLostBefore(c, clock, t, events, AccountAt(d, end), end, later);
    }
  }

  lemma JustRefilled(c: Controller)
    requires Bucket(c)
    ensures AccountAt(c, c.lastRefill) == AccountOf(c)
  {
  }

  lemma NothingLostBefore(c: Controller, clock: int, t: int, events: seq<Event>, e: Account, end: int,
                          later: Option<Account>)
    returns (full: Option<Account>)
    requires Good(c, clock) && c.lastRefill <= t <= clock && events != [] && Enabled(c, clock, events[0])
    requires var b := Apply(c, events[0]);
      && Explains(b, Max(t, b.lastRefill), events[1..], e, end, later) && b.burst == c.burst
      && Max(t, b.lastRefill) <= if events[1..] == [] then end else RefillsAt(b, events[1])
    ensures Explains(c, t, events, e, end, full)
  {
    var b, now := Apply(c, events[0]), RefillsAt(c, events[0]);
    var since := Max(t, b.lastRefill);
    SectionOverflows(c, clock, events[0]);
    RefillsInTime(c, clock, events[0]);
    StepGood(c, clock, events[0]);
    if later.Some? {
      full := later;
    } else if SameFlow(c, b) {
      SameFlowSameAccount(c, b, t);
      full := None;
    } else {
      JustRefilled(b);
      FilledOverflows(c, t, now);
      if Potential(AccountOf(b)) != Potential(AccountAt(c, now)) {
        PassesFirst(b, since, events[1..], end, since);
        full := Some(AccountOf(b));
      } else if Potential(AccountAt(c, now)) == Potential(AccountAt(c, t)) {
        full := None;
      } else {
        PassesFirst(c, t, events, end, now);
        full := Some(AccountAt(c, now));
      }
    }
  }

  /** What a window's tokens would be if nothing had been cut off. */
  ghost function Expected(a: Account, d: Controller, end: int): real {
    a.tokens + (Integrated(d, end) - a.minted) - (d.admitted - a.admitted) as real + (d.refunded - a.refunded) as real
  }

  /**
   * The bucket over every window of every run: at the end it holds what it held, plus what the rate in force added up
   * to, less what was admitted and not refunded.  It holds less only if it overflowed, and then it holds exactly that
   * since the last time it was full.
   */
  lemma BucketIsExact(c: Controller, clock: int, t: int, events: seq<Event>, d: Controller, end: int)
    returns (full: Option<Account>)
    requires Reachable(c, clock) && clock <= t && Run(c, t, events, d) && ClockAfterRun(t, events) <= end
    ensures var tokens := AccountAt(d, end).tokens;
      && tokens <= Expected(AccountAt(c, t), d, end)
      && match full {
           case None => tokens == Expected(AccountAt(c, t), d, end)
           case Some(f) => Visits(c, t, events, end, f) && f.tokens == c.burst as real && tokens == Expected(f, d, end)
         }
  {
    WindowIsPoorer(c, clock, t, events, d, end);
    full := NothingLost(c, t, t, events, d, end);
  }

  // ---- one pass ----

  /** A pass admits the chunk if and only if the bucket covers it once it is refilled. */
  lemma AdmissionIsExact(c: Controller, clock: int, amount: int, now: int, asleep: int)
    requires Reachable(c, clock) && Enabled(c, clock, DoAttempt(amount, now, asleep))
    ensures var d := Apply(c, DoAttempt(amount, now, asleep));
            if AccountAt(c, now).tokens >= amount as real
            then d.admitted == c.admitted + amount && d.tokens == AccountAt(c, now).tokens - amount as real
            else d.admitted == c.admitted && d.tokens == AccountAt(c, now).tokens && d.lastRefill >= now
    ensures Grants(c, amount, now) <==> AccountAt(c, now).tokens >= amount as real
  {
    ReachableGood(c, clock);
    RefillAccount(c, now);
    var d := YieldProbe(Refill(c, now), amount, now);
    assert AccountOf(d) == AccountOf(Refill(c, now));
    AccountFields(d, AccountAt(c, now));
  }

  /** The time between a pass that has to sleep and the wake-up that follows it is counted as pacing, once. */
  lemma SleepIsCounted(c: Controller, clock: int, amount: int, now: int, asleep: int, woken: int)
    requires Reachable(c, clock) && Enabled(c, clock, DoAttempt(amount, now, asleep)) && asleep <= woken
    requires c.mode == Adaptive
    ensures var d := Apply(c, DoAttempt(amount, now, asleep));
            var e := Apply(d, DoWake(woken));
            if AccountAt(c, now).tokens >= amount as real then d.sleep == c.sleep
            else
              && !e.sleep.sleeping && e.sleep.total == c.sleep.total + (woken - asleep)
              && forall t :: asleep <= t ==> PacingTime(d.sleep, t) == c.sleep.total + (t - asleep)
  {
    AdmissionIsExact(c, clock, amount, now, asleep);
    var d := YieldProbe(Refill(c, now), amount, now);
    assert d.sleep == c.sleep && d.mode == c.mode;
  }

  // ---- a call that fails ----

  /** The bucket and what was taken since `from` are together worth what the bucket alone would be. */
  ghost predicate Covered(from: Account, a: Account) {
    var taken := (a.admitted - a.refunded) - (from.admitted - from.refunded);
    && taken >= 0 && a.burst == from.burst && a.minted >= from.minted
    && a.tokens + taken as real >= MinReal(from.burst as real, from.tokens + (a.minted - from.minted))
  }

  lemma CoveredTwice(a: Account, b: Account, e: Account)
    requires Covered(a, b) && Covered(b, e)
    ensures Covered(a, e)
  {
  }

  lemma RefillCovered(c: Controller, now: int)
    requires Bucket(c)
    ensures Covered(AccountOf(c), AccountOf(Refill(c, now)))
  {
    RefillAccount(c, now);
    IntegralNonNegative(c, c.lastRefill, now);
  }

  lemma AttemptCovered(c: Controller, amount: int, now: int, asleep: int)
    requires Bucket(c) && amount >= 0
    ensures Covered(AccountOf(c), AccountOf(Attempt(c, amount, now, asleep)))
  {
    RefillCovered(c, now);
    var d := YieldProbe(Refill(c, now), amount, now);
    assert AccountOf(d) == AccountOf(Refill(c, now));
    SpendCovered(d, amount, now, asleep);
    CoveredTwice(AccountOf(c), AccountOf(d), AccountOf(Attempt(c, amount, now, asleep)));
  }

  lemma SpendCovered(d: Controller, amount: int, now: int, asleep: int)
    requires amount >= 0
    ensures Covered(AccountOf(d), AccountOf(Spend(d, amount, now, asleep)))
  {
  }

  /** A refund gives back what was taken, up to a full bucket. */
  lemma RefundCovered(from: Account, c: Controller, amount: int, now: int)
    requires Bucket(c) && Covered(from, AccountOf(c)) && amount >= 0
    requires amount == (c.admitted - c.refunded) - (from.admitted - from.refunded)
    ensures Covered(from, AccountOf(Refund(c, amount, now)))
  {
    RefillCovered(c, now);
    CoveredTwice(from, AccountOf(c), AccountOf(Refill(c, now)));
    RefillAccount(c, now);
  }

  /** What was taken since `from` and not given back. */
  ghost function Taken(from: Controller, c: Controller): int {
    (c.admitted - c.refunded) - (from.admitted - from.refunded)
  }

  /** Nothing but time has changed the rate in force since `from`: a probe goes on, or ended at its deadline. */
  ghost predicate Steady(from: Controller, c: Controller) {
    && c.targetRate == from.targetRate && c.lastRefill >= from.lastRefill
    && c.minted == from.minted + RateIntegral(from, from.lastRefill, c.lastRefill)
    && (if c.probe.active
        then
          && from.probe.active && c.probe.rate == from.probe.rate && c.probe.deadline == from.probe.deadline
          && c.probe.remaining == from.probe.remaining - Taken(from, c) as real
        else from.probe.active ==> from.probe.deadline <= c.lastRefill)
  }

  /** A steady controller earns from now on what it would have earned anyway. */
  lemma SteadyEarns(from: Controller, c: Controller, t: int)
    requires Steady(from, c) && c.lastRefill <= t
    ensures Integrated(c, t) == Integrated(from, t)
  {
    IntegralAdds(from, from.lastRefill, c.lastRefill, t);
  }

  lemma RefillSteady(from: Controller, c: Controller, now: int)
    requires Bucket(c) && Steady(from, c)
    ensures Steady(from, Refill(c, now)) && Taken(from, Refill(c, now)) == Taken(from, c)
  {
    ProbeRunsOn(c, now);
    RefillAccount(c, now);
    var r, t := Refill(c, now), Max(c.lastRefill, now);
    assert r.admitted == c.admitted && r.refunded == c.refunded;
    AccountFields(r, AccountAt(c, now));
    SteadyEarns(from, c, t);
  }

  lemma NoProbe(c: Controller, now: int)
    requires !c.probe.active
    ensures !Refill(c, now).probe.active
  {
  }

  /** The call cannot use up the allowance of a running probe. */
  ghost predicate Spares(from: Controller, n: int) { from.probe.active ==> n as real < from.probe.remaining }

  lemma AttemptSteady(from: Controller, c: Controller, amount: int, now: int, asleep: int)
    requires Bucket(c) && Steady(from, c) && amount >= 0 && Spares(from, Taken(from, c) + amount)
    ensures Steady(from, Attempt(c, amount, now, asleep))
  {
    RefillSteady(from, c, now);
    SpendSteady(from, Refill(c, now), amount, now, asleep);
  }

  lemma SpendSteady(from: Controller, r: Controller, amount: int, now: int, asleep: int)
    requires Steady(from, r) && amount >= 0 && Spares(from, Taken(from, r) + amount)
    ensures Steady(from, Spend(YieldProbe(r, amount, now), amount, now, asleep))
  {
    assert YieldProbe(r, amount, now) == r;
  }

  /** What a call for `n` bytes leaves of the bucket at every moment, if nothing else happens. */
  ghost predicate Keeps(from: Controller, n: int, c: Controller) {
    && Covered(AccountOf(from), AccountOf(c)) && Taken(from, c) <= n
    && (Spares(from, n) ==> Steady(from, c))
  }

  lemma StartsKept(c: Controller, n: int)
    requires n >= 0
    ensures Keeps(c, n, c)
  {
  }

  lemma AttemptTakes(from: Controller, c: Controller, amount: int, now: int, asleep: int)
    requires amount >= 0
    ensures Taken(from, Attempt(c, amount, now, asleep)) <= Taken(from, c) + amount
  {
  }

  lemma AttemptKeeps(from: Controller, n: int, c: Controller, clock: int, amount: int, now: int, asleep: int)
    requires Reachable(c, clock) && Keeps(from, n, c) && amount >= 0 && Taken(from, c) + amount <= n
    ensures Keeps(from, n, Attempt(c, amount, now, asleep))
  {
    ReachableGood(c, clock);
    AttemptCovered(c, amount, now, asleep);
    CoveredTwice(AccountOf(from), AccountOf(c), AccountOf(Attempt(c, amount, now, asleep)));
    AttemptTakes(from, c, amount, now, asleep);
    if Spares(from, n) { AttemptSteady(from, c, amount, now, asleep); }
  }

  /** A pass, and the wake-up after it if it has to sleep. */
  lemma PassKeeps(from: Controller, n: int, c: Controller, clock: int, amount: int, now: int, asleep: int, woken: int)
    requires Reachable(c, clock) && Keeps(from, n, c) && amount >= 0 && Taken(from, c) + amount <= n
    ensures var d := Attempt(c, amount, now, asleep); Keeps(from, n, d) && Keeps(from, n, Wake(d, woken))
  {
    AttemptKeeps(from, n, c, clock, amount, now, asleep);
    WakeKeeps(from, n, Attempt(c, amount, now, asleep), woken);
  }

  lemma WakeKeeps(from: Controller, n: int, c: Controller, now: int)
    requires Keeps(from, n, c)
    ensures Keeps(from, n, Wake(c, now))
  {
  }

  /** Giving back what was taken leaves the bucket worth at least what it would be, and no probe was cut short. */
  lemma RefundKeeps(from: Controller, n: int, c: Controller, clock: int, now: int)
    requires Reachable(c, clock) && Keeps(from, n, c)
    ensures var d := Refund(c, Taken(from, c), now); Covered(AccountOf(from), AccountOf(d)) && Taken(from, d) == 0
  {
    ReachableGood(c, clock);
    RefundCovered(AccountOf(from), c, Taken(from, c), now);
    RefundTakes(from, c, now);
  }

  lemma RefundTakes(from: Controller, c: Controller, now: int)
    requires Taken(from, c) >= 0
    ensures Taken(from, Refund(c, Taken(from, c), now)) == 0
  {
  }

  lemma RefundEarns(from: Controller, c: Controller, clock: int, amount: int, now: int, end: int)
    requires Reachable(c, clock) && Steady(from, c) && clock <= now <= end && amount >= 0
    ensures Integrated(Refund(c, amount, now), end) == Integrated(from, end)
  {
    ReachableGood(c, clock);
    RefillSteady(from, c, now);
    RefillTokens(c, now);
    SteadyEarns(from, Refill(c, now), end);
    SteadyEarns(from, c, end);
  }

  lemma NothingWasLost(from: Controller, c: Controller, end: int)
    requires Bucket(from) && Bucket(c) && Covered(AccountOf(from), AccountOf(c)) && Taken(from, c) == 0
    requires Integrated(c, end) == Integrated(from, end)
    ensures Refill(c, end).tokens >= Refill(from, end).tokens
  {
    RefillTokens(from, end);
    RefillTokens(c, end);
    IntegralNonNegative(c, c.lastRefill, end);
  }

  /** From `from` to `d` a call for `n` bytes gave back everything it took, and the bucket is worth at least what it
      would be without the call; if the call could not use up a running probe, refilling it up to `end` leaves at least
      what refilling alone would have left. */
  ghost predicate CostNothing(from: Controller, n: int, d: Controller, end: int) {
    && Taken(from, d) == 0
    && d.tokens >= MinReal(from.burst as real, from.tokens + (d.minted - from.minted))
    && (Spares(from, n) ==> Refill(d, end).tokens >= Refill(from, end).tokens)
  }

  /** A call that gives up and gives back what it took has cost nothing. */
  lemma FailedCallCostsNothing(from: Controller, n: int, c: Controller, clock: int, end: int, d: Controller)
    requires Bucket(from) && Reachable(c, clock) && Keeps(from, n, c) && clock <= end
    requires d == Refund(c, Taken(from, c), end)
    ensures CostNothing(from, n, d, end)
  {
    RefundKeeps(from, n, c, clock, end);
    if Spares(from, n) {
      RefundEarns(from, c, clock, Taken(from, c), end, end);
      ReachableGood(c, clock);
      RefundGood(c, clock, Taken(from, c), end);
      NothingWasLost(from, d, end);
    }
  }

  /** The pass ends a running probe, because the chunk exceeds what is left of its allowance. */
  ghost predicate EndsProbe(c: Controller, amount: int, now: int) {
    c.probe.active && now < c.probe.deadline && amount as real > c.probe.remaining
  }

  /** A refill ends a probe exactly at its deadline. */
  lemma ProbeRunsOn(c: Controller, now: int)
    requires Rates(c)
    ensures var r := Refill(c, now);
            && (r.probe.active <==> c.probe.active && now < c.probe.deadline) && (r.probe.active ==> r.probe == c.probe)
            && r.targetRate == c.targetRate
  {
  }

  lemma RefusedPass(r: Controller, amount: int, now: int, asleep: int)
    requires r.tokens < amount as real
    ensures var d := Spend(YieldProbe(r, amount, now), amount, now, asleep);
            && AccountOf(d) == AccountOf(r) && d.targetRate == r.targetRate
            && (if r.probe.active && amount as real > r.probe.remaining then !d.probe.active else d.probe == r.probe)
  {
  }

  /** Over what is left of a probe, the probe's rate and the target rate compare like their integrals. */
  lemma CutShort(r: Controller, d: Controller, now: int, end: int)
    requires Bucket(r) && Bucket(d) && AccountOf(d) == AccountOf(r) && r.lastRefill == now <= end
    requires r.probe.active && now < r.probe.deadline && !d.probe.active && d.targetRate == r.targetRate
    ensures Refill(d, end).tokens >= Refill(r, end).tokens
      <==> (now < end && r.probe.rate > r.targetRate ==>
              r.tokens + Credit(end - now, r.targetRate) >= r.burst as real)
  {
    RefillTokens(r, end);
    RefillTokens(d, end);
    var until := Min(r.probe.deadline, end);
    if now < end {
      CreditAdds(until - now, end - until, r.targetRate);
      CreditCompares(until - now, r.probe.rate, r.targetRate);
    }
  }

  lemma CreditCompares(elapsed: int, a: int, b: int)
    requires elapsed > 0
    ensures a > b <==> Credit(elapsed, a) > Credit(elapsed, b)
  {
    if a > b { StrictlyOrdered(b as real, a as real, elapsed as real); }
    else { MultiplyOrdered(a as real, b as real, elapsed as real); }
  }

  /**
   * A pass that admits nothing costs nothing, unless it ends a running probe: then the bucket fills at the target rate
   * for the rest of the probe, and is short exactly if that is the lower rate and does not fill it anyway.
   */
  lemma RefusedPassIsFree(c: Controller, clock: int, amount: int, now: int, asleep: int, end: int)
    requires Reachable(c, clock) && Enabled(c, clock, DoAttempt(amount, now, asleep)) && now <= end
    requires AccountAt(c, now).tokens < amount as real
    ensures Refill(Attempt(c, amount, now, asleep), end).tokens >= Refill(c, end).tokens
      <==> (EndsProbe(c, amount, now) && now < end && c.probe.rate > c.targetRate ==>
              AccountAt(c, now).tokens + Credit(end - now, c.targetRate) >= c.burst as real)
  {
    ReachableGood(c, clock);
    RefillAccount(c, now);
    RefillTokens(c, now);
    RefillTwice(c, now, end);
    ProbeRunsOn(c, now);
    AttemptNotRicher(c, amount, now, asleep);
    var r, d := Refill(c, now), Attempt(c, amount, now, asleep);
    RefusedPass(r, amount, now, asleep);
    if EndsProbe(c, amount, now) {
      CutShort(r, d, now, end);
    } else {
      SameFlowSameAccount(r, d, end);
      RefillAccount(r, end);
      RefillAccount(d, end);
    }
  }
}
