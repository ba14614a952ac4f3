/** What the pacer guarantees over whole runs: admission bounds, polling independence, probe limits. */
module PacerProofs {
  import opened Basics
  import opened Estimator
  import opened Pacer

  // ---- credit arithmetic ----

  lemma CreditAdds(a: int, b: int, rate: int)
    ensures Credit(a + b, rate) == Credit(a, rate) + Credit(b, rate)
  {
  }

  lemma CreditNonNegative(elapsed: int, rate: int)
    requires elapsed >= 0 && rate >= 0
    ensures Credit(elapsed, rate) >= 0.0
  {
    Product(elapsed as real, rate as real);
  }

  lemma Product(a: real, b: real)
    requires a >= 0.0 && b >= 0.0
    ensures a * b >= 0.0
  {
  }

  // ---- RateIntegral is the integral of RateAt ----

  lemma IntegralOfConstantRate(c: Controller, t0: int, t1: int, rate: int)
    requires t0 < t1 && forall t :: t0 <= t < t1 ==> RateAt(c, t) == rate
    ensures RateIntegral(c, t0, t1) == Credit(t1 - t0, rate)
  {
    assert RateAt(c, t0) == rate && RateAt(c, t1 - 1) == rate;
    if c.probe.active && t0 < c.probe.deadline < t1 {
      CreditAdds(c.probe.deadline - t0, t1 - c.probe.deadline, rate);
      assert RateAt(c, c.probe.deadline) == rate;
    }
  }

  lemma IntegralAdds(c: Controller, t0: int, t1: int, t2: int)
    requires t0 <= t1 <= t2
    ensures RateIntegral(c, t0, t2) == RateIntegral(c, t0, t1) + RateIntegral(c, t1, t2)
  {
    var d := c.probe.deadline;
    CreditAdds(t1 - t0, t2 - t1, c.targetRate);
    if c.probe.active && t0 < d {
      if d < t1 {
        CreditAdds(t1 - d, t2 - t1, c.targetRate);
      } else if t2 <= d {
        CreditAdds(t1 - t0, t2 - t1, c.probe.rate);
      } else {
        CreditAdds(t1 - t0, d - t1, c.probe.rate);
      }
    }
  }

  /** In adaptive mode no rate exceeds the configured maximum. */
  ghost predicate Ceiling(c: Controller) {
    && c.targetRate <= c.maximumRate && c.initialRate <= c.maximumRate && c.minimumRate <= c.maximumRate
    && (c.probe.active ==> c.probe.rate <= c.maximumRate)
  }

  ghost predicate Rates(c: Controller) {
    && c.targetRate >= 0 && (c.mode != Reno ==> c.targetRate > 0) && c.initialRate > 0 && c.minimumRate > 0
    && (c.probe.active ==> c.probe.rate > 0 && !c.probe.pending && c.mode == Adaptive)
    && (c.mode == Adaptive ==> Ceiling(c))
  }

  lemma IntegralNonNegative(c: Controller, t0: int, t1: int)
    requires Rates(c)
    ensures RateIntegral(c, t0, t1) >= 0.0
  {
    var d := c.probe.deadline;
    if t0 < t1 {
      CreditNonNegative(t1 - t0, c.targetRate);
      if c.probe.active && t0 < d {
        CreditNonNegative(t1 - t0, c.probe.rate);
        CreditNonNegative(d - t0, c.probe.rate);
        if d < t1 { CreditNonNegative(t1 - d, c.targetRate); }
      }
    }
  }

  // ---- refill ----

  ghost predicate Bucket(c: Controller) {
    Rates(c) && 0.0 <= c.tokens <= c.burst as real
  }

  /** What the admission bound is about. */
  datatype Account = Account(
    mode: Mode, maximumRate: int, burst: int, tokens: real, lastRefill: int, minted: real, admitted: int, refunded: int)

  ghost function AccountOf(c: Controller): Account {
    Account(c.mode, c.maximumRate, c.burst, c.tokens, c.lastRefill, c.minted, c.admitted, c.refunded)
  }

  /** An account after earning `gain` up to `now`. */
  ghost function Poured(a: Account, now: int, gain: real): Account {
    a.(tokens := MinReal(a.burst as real, a.tokens + gain), lastRefill := Max(a.lastRefill, now))
  }

  ghost function Filled(a: Account, now: int, gain: real): Account { Poured(a, now, gain).(minted := a.minted + gain) }

  /** The account a refill at `t` leaves, however late it comes. */
  ghost function AccountAt(c: Controller, t: int): Account {
    Filled(AccountOf(c), t, RateIntegral(c, c.lastRefill, t))
  }

  /** What the rate in force has added up to by `t`, since the controller was made. */
  ghost function Integrated(c: Controller, t: int): real { c.minted + RateIntegral(c, c.lastRefill, t) }

  lemma PouredTwice(a: Account, t1: int, t2: int, g1: real, g2: real)
    requires g1 >= 0.0 && g2 >= 0.0 && a.tokens <= a.burst as real && t1 <= t2
    ensures Poured(Poured(a, t1, g1), t2, g2) == Poured(a, t2, g1 + g2)
  {
  }

  lemma RefillAtRateAccount(c: Controller, now: int, rate: int)
    requires c.tokens <= c.burst as real
    ensures var gain := if c.lastRefill < now then Credit(now - c.lastRefill, rate) else 0.0;
            AccountOf(RefillAtRate(c, now, rate)) == Poured(AccountOf(c), now, gain)
    ensures RefillAtRate(c, now, rate).probe == c.probe
  {
  }

  /** Noticing that a probe has ended moves no tokens. */
  lemma ProbeEndsAccount(c: Controller, now: int)
    ensures AccountOf(Finish(c, now)) == AccountOf(c) && AccountOf(ExpireOutcome(c, now)) == AccountOf(c)
    ensures !Finish(c, now).probe.active && Finish(c, now).targetRate == c.targetRate
  {
  }

  /** A refill splits the elapsed time at a deadline that has passed. */
  lemma RefillAccount(c: Controller, now: int)
    requires Bucket(c)
    ensures AccountOf(Refill(c, now)) == AccountAt(c, now)
  {
    var d := ExpireProbe(c, now);
    var e := RefillAtRate(d, now, PacingRate(d));
    ProbeEndsAccount(e, now);
    if c.probe.active && now >= c.probe.deadline { ExpiredAccount(c, now); }
    RefillAtRateAccount(d, now, PacingRate(d));
    assert AccountOf(e) == Poured(AccountOf(c), now, RateIntegral(c, c.lastRefill, now));
    RefillIsLast(c, e, now);
  }

  lemma RefillIsLast(c: Controller, e: Controller, now: int)
    requires e == RefillAtRate(ExpireProbe(c, now), now, PacingRate(ExpireProbe(c, now)))
    requires AccountOf(ExpireOutcome(e, now)) == AccountOf(e)
    ensures AccountOf(Refill(c, now)) == AccountOf(e).(minted := c.minted + RateIntegral(c, c.lastRefill, now))
  {
  }

  lemma ExpiredAccount(c: Controller, now: int)
    requires Bucket(c) && c.probe.active && c.probe.deadline <= now
    ensures var d := ExpireProbe(c, now);
            AccountOf(RefillAtRate(d, now, PacingRate(d))) ==
            Poured(AccountOf(c), now, RateIntegral(c, c.lastRefill, now))
  {
    var b := RefillAtRate(c, c.probe.deadline, c.probe.rate);
    var d := ExpireProbe(c, now);
    RefillAtRateAccount(c, c.probe.deadline, c.probe.rate);
    ProbeEndsAccount(b, c.probe.deadline);
    RefillAtRateAccount(d, now, c.targetRate);
    var t0, t1 := c.lastRefill, c.probe.deadline;
    IntegralNonNegative(c, t0, t1);
    IntegralNonNegative(c, Max(t0, t1), now);
    PouredTwice(AccountOf(c), t1, now, RateIntegral(c, t0, t1), RateIntegral(c, Max(t0, t1), now));
    if t0 <= t1 { IntegralAdds(c, t0, t1, now); }
  }

  /** What a refill leaves of the rates. */
  lemma RefillRates(c: Controller, now: int)
    requires Rates(c)
    ensures var r := Refill(c, now);
      && Rates(r) && r.targetRate == c.targetRate && r.initialRate == c.initialRate && r.minimumRate == c.minimumRate
      && (r.probe.active ==> r.probe == c.probe)
  {
  }

  /** What a refill does to the bucket, however late it comes. */
  lemma RefillTokens(c: Controller, now: int)
    requires Bucket(c)
    ensures var r := Refill(c, now);
      && r.tokens == MinReal(c.burst as real, c.tokens + RateIntegral(c, c.lastRefill, now))
      && r.lastRefill == Max(c.lastRefill, now)
      && Bucket(r)
  {
    RefillAccount(c, now);
    RefillRates(c, now);
    IntegralNonNegative(c, c.lastRefill, now);
    AccountFields(Refill(c, now), AccountAt(c, now));
  }

  lemma AccountFields(c: Controller, a: Account)
    requires AccountOf(c) == a
    ensures c.tokens == a.tokens && c.lastRefill == a.lastRefill && c.burst == a.burst && c.minted == a.minted
  {
  }

  /** An extra refill in between changes nothing, also across a probe deadline noticed late. */
  lemma RefillTwice(c: Controller, t1: int, t2: int)
    requires Bucket(c) && t1 <= t2
    ensures Refill(Refill(c, t1), t2).tokens == Refill(c, t2).tokens
    ensures Refill(Refill(c, t1), t2).lastRefill == Refill(c, t2).lastRefill
    ensures Refill(Refill(c, t1), t2).minted == Refill(c, t2).minted
  {
    var d := Refill(c, t1);
    RefillTokens(c, t1);
    RefillAccount(c, t1);
    RefillAccount(d, t2);
    RefillAccount(c, t2);
    var s := Max(c.lastRefill, t1);
    RefillKeepsFuture(c, t1, t2);
    FilledTwice(c, t1, t2);
    AccountFields(Refill(d, t2), AccountAt(c, t2));
    AccountFields(Refill(c, t2), AccountAt(c, t2));
  }

  /** Filling up to `t1` and then up to `t2` is filling up to `t2`. */
  lemma FilledTwice(c: Controller, t1: int, t2: int)
    requires Bucket(c) && t1 <= t2
    ensures AccountAt(c, t2) == Filled(AccountAt(c, t1), t2, RateIntegral(c, Max(c.lastRefill, t1), t2))
  {
    var s := Max(c.lastRefill, t1);
    if s <= t2 { IntegralAdds(c, c.lastRefill, s, t2); }
    IntegralNonNegative(c, c.lastRefill, t1);
    IntegralNonNegative(c, s, t2);
    PouredTwice(AccountOf(c), t1, t2, RateIntegral(c, c.lastRefill, t1), RateIntegral(c, s, t2));
  }

  lemma RefillKeepsFuture(c: Controller, t1: int, t2: int)
    requires Rates(c) && t1 <= t2
    ensures var s := Max(c.lastRefill, t1); RateIntegral(Refill(c, t1), s, t2) == RateIntegral(c, s, t2)
  {
  }

  ghost function Polled(c: Controller, polls: seq<int>): Controller
    decreases |polls|
  {
    if polls == [] then c else Polled(Refill(c, polls[0]), polls[1..])
  }

  /** Any number of extra refills at earlier times leaves the final token count unchanged. */
  lemma {:induction false} PollingIsInvisible(c: Controller, polls: seq<int>, t: int)
    requires Bucket(c) && forall i :: 0 <= i < |polls| ==> polls[i] <= t
    ensures Refill(Polled(c, polls), t).tokens == Refill(c, t).tokens
    decreases |polls|
  {
    if polls == [] {
    } else {
      RefillTokens(c, polls[0]);
      PollingIsInvisible(Refill(c, polls[0]), polls[1..], t);
      RefillTwice(c, polls[0], t);
    }
  }

  // ---- the admission bound ----

  /** Bytes the bucket still owes or is owed: no operation may raise it. */
  ghost function Potential(a: Account): real {
    a.tokens + a.admitted as real - a.refunded as real - a.minted
  }

  ghost predicate Poorer(a: Account, b: Account) {
    && b.burst == a.burst && b.maximumRate == a.maximumRate && b.mode == a.mode
    && Potential(b) <= Potential(a)
    && a.lastRefill <= b.lastRefill
    && (a.mode == Adaptive ==> b.minted - a.minted <= Credit(b.lastRefill - a.lastRefill, a.maximumRate))
  }

  ghost predicate NotRicher(c: Controller, d: Controller) {
    Bucket(d) && Poorer(AccountOf(c), AccountOf(d))
  }

  lemma Compose(a: Account, b: Account, e: Account)
    requires Poorer(a, b) && Poorer(b, e)
    ensures Poorer(a, e)
  {
    CreditAdds(b.lastRefill - a.lastRefill, e.lastRefill - b.lastRefill, a.maximumRate);
  }

  lemma Chain(c: Controller, d: Controller, e: Controller)
    requires NotRicher(c, d) && NotRicher(d, e)
    ensures NotRicher(c, e)
  {
    Compose(AccountOf(c), AccountOf(d), AccountOf(e));
  }

  /** A change that moves no tokens and no time. */
  lemma Instant(c: Controller, d: Controller)
    requires Bucket(d) && d.burst == c.burst && d.maximumRate == c.maximumRate && d.mode == c.mode
    requires d.lastRefill == c.lastRefill && d.minted == c.minted && Potential(AccountOf(d)) <= Potential(AccountOf(c))
    ensures NotRicher(c, d)
  {
    assert Credit(0, c.maximumRate) == 0.0;
  }

  lemma CreditMonotone(elapsed: int, a: int, b: int)
    requires elapsed >= 0 && a <= b
    ensures Credit(elapsed, a) <= Credit(elapsed, b)
  {
    Product(elapsed as real, (b - a) as real);
  }

  lemma IntegralBelowCeiling(c: Controller, t0: int, t1: int)
    requires Ceiling(c) && t0 <= t1
    ensures RateIntegral(c, t0, t1) <= Credit(t1 - t0, c.maximumRate)
  {
    var d := c.probe.deadline;
    CreditMonotone(t1 - t0, c.targetRate, c.maximumRate);
    assert Credit(0, c.maximumRate) == 0.0;
    if c.probe.active && t0 < d {
      CreditMonotone(t1 - t0, c.probe.rate, c.maximumRate);
      if d < t1 {
        CreditMonotone(d - t0, c.probe.rate, c.maximumRate);
        CreditMonotone(t1 - d, c.targetRate, c.maximumRate);
        CreditAdds(d - t0, t1 - d, c.maximumRate);
      }
    }
  }

  /** Earning what time brings makes an account no richer. */
  lemma FilledIsPoorer(a: Account, now: int, gain: real)
    requires gain >= 0.0 && (a.lastRefill >= now ==> gain == 0.0)
    requires a.mode == Adaptive ==> gain <= Credit(Max(a.lastRefill, now) - a.lastRefill, a.maximumRate)
    ensures Poorer(a, Filled(a, now, gain))
  {
  }

  lemma FillingIsPoorer(c: Controller, a: Account, t0: int, now: int)
    requires Rates(c) && a.mode == c.mode && a.maximumRate == c.maximumRate && a.lastRefill == t0
    ensures Poorer(a, Filled(a, now, RateIntegral(c, t0, now)))
  {
    IntegralNonNegative(c, t0, now);
    if c.mode == Adaptive {
      if t0 <= now { IntegralBelowCeiling(c, t0, now); } else { assert Credit(0, c.maximumRate) == 0.0; }
    }
    FilledIsPoorer(a, now, RateIntegral(c, t0, now));
  }

  lemma RefillNotRicher(c: Controller, now: int)
    requires Bucket(c)
    ensures NotRicher(c, Refill(c, now))
  {
    RefillTokens(c, now);
    RefillAccount(c, now);
    FillingIsPoorer(c, AccountOf(c), c.lastRefill, now);
  }

  lemma LaterIsPoorer(c: Controller, t: int, now: int)
    requires Bucket(c) && t <= now
    ensures Poorer(AccountAt(c, t), AccountAt(c, now))
  {
    FilledTwice(c, t, now);
    FillingIsPoorer(c, AccountAt(c, t), Max(c.lastRefill, t), now);
  }

  /** An operation that refills at `now` and then takes its course until `end`. */
  lemma Moves(c: Controller, t: int, now: int, d: Controller, end: int)
    requires Bucket(c) && t <= now && NotRicher(Refill(c, now), d)
    ensures Poorer(AccountAt(c, t), AccountAt(d, end))
  {
    RefillAccount(c, now);
    LaterIsPoorer(c, t, now);
    Ahead(AccountAt(c, t), AccountAt(c, now), d, end);
  }

  lemma Ahead(a: Account, b: Account, d: Controller, end: int)
    requires Poorer(a, b) && Poorer(b, AccountOf(d)) && Bucket(d)
    ensures Poorer(a, AccountAt(d, end))
  {
    FillingIsPoorer(d, AccountOf(d), d.lastRefill, end);
    Compose(a, b, AccountOf(d));
    Compose(a, AccountOf(d), AccountAt(d, end));
  }

  /** What a refill depends on. */
  ghost predicate SameFlow(c: Controller, d: Controller) {
    AccountOf(c) == AccountOf(d) && c.targetRate == d.targetRate && c.probe == d.probe
  }

  lemma SameFlowSameAccount(c: Controller, d: Controller, t: int)
    requires SameFlow(c, d)
    ensures AccountAt(c, t) == AccountAt(d, t)
  {
    AccountFields(c, AccountOf(d));
  }

  /** An operation that does not touch the bucket. */
  lemma Rests(c: Controller, t: int, d: Controller, end: int)
    requires Bucket(c) && SameFlow(c, d) && t <= end
    ensures Poorer(AccountAt(c, t), AccountAt(d, end))
  {
    LaterIsPoorer(c, t, end);
    SameFlowSameAccount(c, d, end);
  }

  lemma AttemptNotRicher(c: Controller, amount: int, now: int, asleep: int)
    requires Bucket(c) && amount >= 0
    ensures NotRicher(Refill(c, now), Attempt(c, amount, now, asleep))
  {
    RefillTokens(c, now);
    var r := Refill(c, now);
    var d := YieldProbe(r, amount, now);
    var e := Attempt(c, amount, now, asleep);
    Instant(r, d);
    if d.tokens >= amount as real { ChargeNotRicher(d, amount, now); } else { Instant(d, e); }
    Chain(r, d, e);
  }

  lemma ChargeNotRicher(d: Controller, amount: int, now: int)
    requires Bucket(d) && amount >= 0 && d.tokens >= amount as real
    ensures NotRicher(d, Charge(d, amount, now))
  {
    Instant(d, Charge(d, amount, now));
  }

  lemma RefundNotRicher(c: Controller, amount: int, now: int)
    requires Bucket(c) && amount > 0
    ensures NotRicher(Refill(c, now), Refund(c, amount, now))
  {
    RefillTokens(c, now);
    Instant(Refill(c, now), Refund(c, amount, now));
  }

  lemma SetTargetNotRicher(c: Controller, rate: int, now: int)
    requires Bucket(c) && rate > 0 && (c.mode == Adaptive ==> rate <= c.maximumRate)
    ensures NotRicher(Refill(c, now), SetTargetRate(c, rate, now)) && NotRicher(c, SetTargetRate(c, rate, now))
  {
    RefillNotRicher(c, now);
    Instant(Refill(c, now), SetTargetRate(c, rate, now));
    Chain(c, Refill(c, now), SetTargetRate(c, rate, now));
  }

  lemma InterruptedNotRicher(c: Controller, s: Snapshot, now: int)
    requires Bucket(c)
    ensures NotRicher(Refill(c, now), Interrupted(c, s, now))
  {
    RefillTokens(c, now);
    Instant(Refill(c, now), Interrupted(c, s, now));
  }

  lemma JudgeNotRicher(c: Controller, s: Snapshot, now: int, limited: bool, loss: bool)
    requires Bucket(c)
    ensures NotRicher(c, Judge(c, s, now, limited, loss))
  {
    Instant(c, Judge(c, s, now, limited, loss));
  }

  lemma ConsiderNotRicher(c: Controller, s: Snapshot, capacity: real, now: int)
    requires Bucket(c) && !c.probe.active && !c.probe.pending && c.mode == Adaptive
    ensures NotRicher(c, Consider(c, s, capacity, now))
  {
    Instant(c, Consider(c, s, capacity, now));
  }

  lemma ObserveProbeNotRicher(c: Controller, s: Snapshot, now: int, limited: bool, loss: bool)
    requires Bucket(c) && c.mode == Adaptive
    ensures NotRicher(c, ObserveProbe(c, s, now, limited, loss))
  {
    Instant(c, c);
    if c.probe.active || c.probe.pending {
      JudgeNotRicher(c, s, now, limited, loss);
    } else {
      var d := c.(probe := CountEligible(c.probe, s.smoothedRTT, now));
      Instant(c, d);
      Instant(c, c.(probe := c.probe.(eligibleSamples := 0)));
      var capacity := Estimate(c.initialRate as real, c.samples);
      ConsiderNotRicher(d, s, capacity, now);
      Chain(c, d, Consider(d, s, capacity, now));
    }
  }

  lemma AdoptNotRicher(c: Controller, s: Snapshot, samples: seq<real>, target: int, now: int, later: int,
                       limited: bool, loss: bool)
    requires Bucket(c) && c.mode == Adaptive && 0 < target <= c.maximumRate
    ensures NotRicher(c, Adopt(c, s, samples, target, now, later, limited, loss))
  {
    var d := c.(samples := samples);
    SetTargetNotRicher(d, target, later);
    var e := SetTargetRate(d, target, later);
    ObserveProbeNotRicher(e, s, now, limited, loss);
    Chain(c, e, ObserveProbe(e, s, now, limited, loss));
  }

  lemma LearnNotRicher(c: Controller, s: Snapshot, m: Sample, now: int, later: int)
    requires Bucket(c) && m.sentDelta > 0 && m.elapsed > 0 && s.minRTT > 0 && s.smoothedRTT > 0 && c.mode == Adaptive
    ensures NotRicher(c, Learn(c, s, m, now, later))
  {
    AdoptNotRicher(c, s, NewSamples(c, m), NewTarget(c, s, m), now, later, m.limited, LostBytes(m) != 0);
  }

  lemma DigestNotRicher(c: Controller, s: Snapshot, now: int, later: int)
    requires Bucket(c) && c.mode == Adaptive
    requires s.at > c.previous.at && s.sent >= c.previous.sent && s.minRTT >= 0 && s.smoothedRTT >= 0
    ensures NotRicher(Refill(c, now), Digest(c, s, now, later))
  {
    InterruptedNotRicher(c, s, now);
    var r, d := Refill(c, now), Interrupted(c, s, now);
    var m := Measure(d.sleep, c.previous, s, now);
    var e := Record(d, s, now);
    Instant(d, e);
    Chain(r, d, e);
    AbortNotRicher(e, now);
    Chain(r, e, Abort(e, now));
    if m.sentDelta > 0 && m.elapsed > 0 && s.minRTT > 0 && s.smoothedRTT > 0 {
      LearnNotRicher(e, s, m, now, later);
      Chain(r, e, Learn(e, s, m, now, later));
    }
    DigestIsOneOf(c, s, now, later);
  }

  lemma AbortNotRicher(c: Controller, now: int)
    requires Bucket(c)
    ensures NotRicher(c, Abort(c, now))
  {
    Instant(c, Abort(c, now));
  }

  /** The four outcomes of an ordinary observation. */
  lemma DigestIsOneOf(c: Controller, s: Snapshot, now: int, later: int)
    requires s.at > c.previous.at && s.sent >= c.previous.sent && s.minRTT >= 0 && s.smoothedRTT >= 0
    ensures var d := Interrupted(c, s, now);
      var m := Measure(d.sleep, c.previous, s, now);
      var e := Record(d, s, now);
      Digest(c, s, now, later) == d || Digest(c, s, now, later) == Abort(e, now)
      || (m.sentDelta > 0 && m.elapsed > 0 && s.minRTT > 0 && s.smoothedRTT > 0
          && Digest(c, s, now, later) == Learn(e, s, m, now, later))
  {
  }

  lemma NewEpochNotRicher(c: Controller, s: Snapshot, t1: int, t2: int, t3: int)
    requires Bucket(c)
    ensures NotRicher(Refill(Record(c, s, t1).(samples := []), t2), NewEpoch(c, s, t1, t2, t3))
  {
    var d := Record(c, s, t1).(samples := []);
    RefillTokens(d, t2);
    var e := ResetProbe(d, t2);
    Instant(Refill(d, t2), e);
    SetTargetNotRicher(e, c.initialRate, t3);
    Chain(Refill(d, t2), e, SetTargetRate(e, c.initialRate, t3));
  }

  /** Every observation moves the account as time alone would, or less. */
  lemma ObserveMoves(c: Controller, given: Snapshot, t: Readings, clock: int)
    requires Bucket(c) && clock <= t.t1 <= t.t2 <= t.t3
    ensures Bucket(Observe(c, given, t)) && Poorer(AccountAt(c, clock), AccountAt(Observe(c, given, t), t.t3))
  {
    var s, d := Stamped(given, t.t0), Observe(c, given, t);
    if c.mode != Adaptive || Rejected(c, given, t) || !c.haveSnapshot {
      Rests(c, clock, d, t.t3);
    } else if s.sent < c.previous.sent || s.idle < c.previous.idle {
      var e := Record(c, s, t.t1).(samples := []);
      NewEpochNotRicher(c, s, t.t1, t.t2, t.t3);
      Moves(e, clock, t.t2, d, t.t3);
      SameFlowSameAccount(c, e, clock);
    } else {
      DigestNotRicher(c, s, t.t1, t.t2);
      Moves(c, clock, t.t1, d, t.t3);
    }
  }

  // ---- the clock ----

  /** No refill lies in the future. */
  lemma RefillIsTimely(c: Controller, now: int, clock: int)
    requires c.lastRefill <= clock && now <= clock
    ensures Refill(c, now).lastRefill <= clock
  {
  }

  lemma ObserveProbeIsTimely(c: Controller, s: Snapshot, now: int, limited: bool, loss: bool)
    ensures ObserveProbe(c, s, now, limited, loss).lastRefill == c.lastRefill
  {
    var d := c.(probe := CountEligible(c.probe, s.smoothedRTT, now));
    ConsiderIsTimely(d, s, Estimate(c.initialRate as real, c.samples), now);
  }

  lemma ConsiderIsTimely(c: Controller, s: Snapshot, capacity: real, now: int)
    ensures Consider(c, s, capacity, now).lastRefill == c.lastRefill
  {
  }

  lemma AdoptIsTimely(c: Controller, s: Snapshot, samples: seq<real>, target: int, now: int, later: int,
                      limited: bool, loss: bool)
    requires c.lastRefill <= later
    ensures Adopt(c, s, samples, target, now, later, limited, loss).lastRefill <= later
  {
    RefillIsTimely(c.(samples := samples), later, later);
    ObserveProbeIsTimely(SetTargetRate(c.(samples := samples), target, later), s, now, limited, loss);
  }

  lemma ObserveIsTimely(c: Controller, given: Snapshot, t: Readings)
    requires c.lastRefill <= t.t1 <= t.t2 <= t.t3
    ensures Observe(c, given, t).lastRefill <= t.t3
  {
    var s := Stamped(given, t.t0);
    if c.mode != Adaptive || Rejected(c, given, t) || !c.haveSnapshot {
    } else if s.sent < c.previous.sent || s.idle < c.previous.idle {
      var e := Record(c, s, t.t1).(samples := []);
      RefillIsTimely(e, t.t2, t.t3);
      RefillIsTimely(ResetProbe(e, t.t2), t.t3, t.t3);
    } else {
      DigestIsTimely(c, s, t.t1, t.t2);
    }
  }

  lemma DigestIsTimely(c: Controller, s: Snapshot, now: int, later: int)
    requires c.lastRefill <= now <= later
    requires s.at > c.previous.at && s.sent >= c.previous.sent && s.minRTT >= 0 && s.smoothedRTT >= 0
    ensures Digest(c, s, now, later).lastRefill <= later
  {
    RefillIsTimely(c, now, later);
    var d := Interrupted(c, s, now);
    var m := Measure(d.sleep, c.previous, s, now);
    DigestIsOneOf(c, s, now, later);
    if m.sentDelta > 0 && m.elapsed > 0 && s.minRTT > 0 && s.smoothedRTT > 0 {
      var e := Record(d, s, now);
      AdoptIsTimely(e, s, NewSamples(e, m), NewTarget(e, s, m), now, later, m.limited, LostBytes(m) != 0);
    }
  }

  // ---- what a probe may do ----

  ghost predicate ExcursionOk(limit: int, e: Excursion) {
    && 0 <= e.end - e.start <= MAXIMUM_PROBE_DURATION
    && e.admitted <= MAXIMUM_PROBE_BYTES && e.rate <= limit
  }

  ghost predicate Spaced(es: seq<Excursion>) {
    forall i :: 0 <= i < |es| - 1 ==> es[i].end + MINIMUM_PROBE_GAP <= es[i + 1].start
  }

  ghost predicate Past(es: seq<Excursion>, limit: int) {
    (forall i :: 0 <= i < |es| ==> ExcursionOk(limit, es[i])) && Spaced(es)
  }

  /** The last probe ended by `t`. */
  ghost predicate EndedBy(es: seq<Excursion>, t: int) {
    es == [] || es[|es| - 1].end <= t
  }

  ghost predicate ActiveOk(c: Controller, clock: int) {
    c.probe.active ==>
      && c.probeStart <= clock && c.probeStart <= c.probe.deadline <= c.probeStart + MAXIMUM_PROBE_DURATION
      && c.probe.remaining >= 0.0
      && c.probeAdmitted as real + c.probe.remaining <= MAXIMUM_PROBE_BYTES as real
      && c.probe.rate <= c.maximumRate
      && EndedBy(c.excursions, c.probeStart - MINIMUM_PROBE_GAP)
  }

  /** A pause of a second is certain: by the eligibility count or by the back-off. */
  ghost predicate RestOk(c: Controller) {
    !c.probe.active && c.probe.eligibleSamples > 0 ==>
      EndedBy(c.excursions, Max(c.probe.eligibleSince, c.probe.nextAt - MINIMUM_PROBE_GAP))
  }

  ghost predicate ProbeOk(c: Controller, clock: int) {
    && Past(c.excursions, c.maximumRate) && EndedBy(c.excursions, clock)
    && ActiveOk(c, clock) && RestOk(c) && c.probe.eligibleSamples >= 0
    && (c.probe.active || c.probe.pending ==> c.probe.gap >= MINIMUM_PROBE_GAP)
    && (c.probe.pending ==> !c.probe.active && c.probe.eligibleSamples == 0)
  }

  lemma FinishOk(c: Controller, now: int, clock: int)
    requires ProbeOk(c, clock) && c.probe.active && c.probeStart <= now <= c.probe.deadline && now <= clock
    ensures ProbeOk(Finish(c, now), clock)
  {
  }

  lemma ResolveOk(c: Controller, now: int, clock: int, success: bool)
    requires ProbeOk(c, clock) && (c.probe.active || c.probe.pending) && now <= clock
    requires c.probe.active ==> c.probeStart <= now <= c.probe.deadline
    ensures ProbeOk(Resolve(c, now, success), clock)
  {
  }

  /** ProbeOk looks at these fields only, and survives the passing of time. */
  ghost predicate SameProbe(c: Controller, d: Controller) {
    && d.probe == c.probe && d.excursions == c.excursions && d.probeStart == c.probeStart
    && d.probeAdmitted == c.probeAdmitted && d.maximumRate == c.maximumRate
  }

  lemma ProbeFrame(c: Controller, d: Controller, clock: int, now: int)
    requires ProbeOk(c, clock) && clock <= now && SameProbe(c, d)
    ensures ProbeOk(d, now)
  {
  }

  lemma ExpireProbeOk(c: Controller, now: int, clock: int)
    requires ProbeOk(c, clock) && clock <= now
    ensures var d := ExpireProbe(c, now);
      ProbeOk(d, now) && (d.probe.active ==> d == c && now < d.probe.deadline) && (d.probe.pending || SameProbe(c, d))
  {
    ProbeFrame(c, c, clock, now);
    if c.probe.active && now >= c.probe.deadline {
      var e := RefillAtRate(c, c.probe.deadline, c.probe.rate);
      ProbeFrame(c, e, clock, now);
      FinishOk(e, c.probe.deadline, now);
    }
  }

  lemma ExpireOutcomeOk(c: Controller, now: int)
    requires ProbeOk(c, now)
    ensures var d := ExpireOutcome(c, now);
      && ProbeOk(d, now) && (d.probe.active ==> d == c)
      && (d == c || (!d.probe.active && !d.probe.pending && EndedBy(d.excursions, d.probe.nextAt - MINIMUM_PROBE_GAP)))
  {
    if c.probe.pending && now >= c.probe.outcomeDeadline { ResolveOk(c, now, now, false); }
  }

  lemma RefillShowsProbe(c: Controller, x: Controller, now: int)
    requires x == ExpireOutcome(RefillAtRate(ExpireProbe(c, now), now, PacingRate(ExpireProbe(c, now))), now)
    ensures SameProbe(x, Refill(c, now))
  {
  }

  /** After a refill the probe is over if its deadline passed, and the clock is past everything. */
  lemma RefillOk(c: Controller, now: int, clock: int)
    requires ProbeOk(c, clock) && clock <= now
    ensures var r := Refill(c, now);
      && ProbeOk(r, now)
      && (r.probe.active ==> SameProbe(c, r) && now < r.probe.deadline)
      && (!r.probe.active && !r.probe.pending ==> EndedBy(r.excursions, Max(clock, r.probe.nextAt - MINIMUM_PROBE_GAP)))
      && r.maximumRate == c.maximumRate
  {
    ExpireProbeOk(c, now, clock);
    var d := ExpireProbe(c, now);
    var e := RefillAtRate(d, now, PacingRate(d));
    ProbeFrame(d, e, now, now);
    ExpireOutcomeOk(e, now);
    var x := ExpireOutcome(e, now);
    RefillShowsProbe(c, x, now);
    ProbeFrame(x, Refill(c, now), now, now);
  }

  // ---- the operations keep ProbeOk ----

  lemma AbortOk(c: Controller, now: int, clock: int)
    requires ProbeOk(c, clock) && now <= clock
    requires c.probe.active ==> c.probeStart <= now <= c.probe.deadline
    ensures ProbeOk(Abort(c, now), clock) && !Abort(c, now).probe.active
  {
    if c.probe.active || c.probe.pending { ResolveOk(c, now, clock, false); }
  }

  lemma YieldOk(c: Controller, amount: int, now: int)
    requires ProbeOk(c, now) && (c.probe.active ==> now < c.probe.deadline)
    ensures var d := YieldProbe(c, amount, now);
      && ProbeOk(d, now) && d.maximumRate == c.maximumRate
      && (d.probe.active ==> now < d.probe.deadline && amount as real <= d.probe.remaining)
  {
    if c.probe.active && amount as real > c.probe.remaining { FinishOk(c, now, now); }
  }

  lemma ChargeOk(c: Controller, amount: int, now: int)
    requires ProbeOk(c, now) && (c.probe.active ==> now < c.probe.deadline && amount as real <= c.probe.remaining)
    ensures ProbeOk(Charge(c, amount, now), now)
  {
    if c.probe.active {
      var d := c.(tokens := c.tokens - amount as real, admitted := c.admitted + amount);
      var e := d.(probe := d.probe.(remaining := d.probe.remaining - amount as real),
                  probeAdmitted := d.probeAdmitted + amount);
      assert ProbeOk(e, now);
      if e.probe.remaining == 0.0 { FinishOk(e, now, now); }
    }
  }

  lemma AttemptOk(c: Controller, amount: int, now: int, asleep: int, clock: int)
    requires ProbeOk(c, clock) && clock <= now <= asleep
    ensures ProbeOk(Attempt(c, amount, now, asleep), asleep)
  {
    RefillOk(c, now, clock);
    var r := Refill(c, now);
    YieldOk(r, amount, now);
    var d := YieldProbe(r, amount, now);
    if d.tokens >= amount as real {
      ChargeOk(d, amount, now);
      ProbeFrame(Charge(d, amount, now), Charge(d, amount, now), now, asleep);
    } else {
      ProbeFrame(d, Attempt(c, amount, now, asleep), now, asleep);
    }
  }

  lemma InterruptedOk(c: Controller, s: Snapshot, now: int, clock: int)
    requires ProbeOk(c, clock) && clock <= now
    ensures var d := Interrupted(c, s, now);
      && ProbeOk(d, now) && (d.probe.active ==> now < d.probe.deadline)
      && d.maximumRate == c.maximumRate && d.burst == c.burst
  {
    RefillOk(c, now, clock);
    AbortOk(Refill(c, now), now, now);
  }

  lemma JudgeOk(c: Controller, s: Snapshot, now: int, limited: bool, loss: bool, clock: int)
    requires ProbeOk(c, clock) && now <= clock && (c.probe.active || c.probe.pending)
    requires c.probe.active ==> c.probeStart <= now <= c.probe.deadline
    ensures ProbeOk(Judge(c, s, now, limited, loss), clock)
  {
    AbortOk(c, now, clock);
    ResolveOk(c, now, clock, true);
  }

  lemma CountEligibleOk(c: Controller, rtt: int, now: int, clock: int)
    requires ProbeOk(c, clock) && !c.probe.active && !c.probe.pending
    requires EndedBy(c.excursions, Max(now, c.probe.nextAt - MINIMUM_PROBE_GAP))
    ensures var d := c.(probe := CountEligible(c.probe, rtt, now));
      ProbeOk(d, clock) && !d.probe.active && !d.probe.pending && d.probe.eligibleSamples > 0
  {
  }

  lemma ConsiderOk(c: Controller, s: Snapshot, capacity: real, now: int, clock: int)
    requires ProbeOk(c, clock) && now <= clock && !c.probe.active && !c.probe.pending && c.probe.eligibleSamples > 0
    requires c.burst >= 0
    ensures ProbeOk(Consider(c, s, capacity, now), clock)
  {
  }

  lemma ObserveProbeOk(c: Controller, s: Snapshot, now: int, limited: bool, loss: bool, clock: int)
    requires ProbeOk(c, clock) && now <= clock && c.burst >= 0
    requires c.probe.active ==> c.probeStart <= now <= c.probe.deadline
    requires !c.probe.active && !c.probe.pending ==> EndedBy(c.excursions, Max(now, c.probe.nextAt - MINIMUM_PROBE_GAP))
    ensures ProbeOk(ObserveProbe(c, s, now, limited, loss), clock)
  {
    if c.profile != Conservative {
      if c.probe.active || c.probe.pending {
        JudgeOk(c, s, now, limited, loss, clock);
      } else {
        CountEligibleOk(c, s.smoothedRTT, now, clock);
        var d := c.(probe := CountEligible(c.probe, s.smoothedRTT, now));
        ConsiderOk(d, s, Estimate(c.initialRate as real, c.samples), now, clock);
      }
    }
  }

  lemma AdoptOk(c: Controller, s: Snapshot, samples: seq<real>, target: int, now: int, later: int,
                limited: bool, loss: bool)
    requires ProbeOk(c, now) && now <= later && c.burst >= 0
    ensures ProbeOk(Adopt(c, s, samples, target, now, later, limited, loss), later)
  {
    var d := c.(samples := samples);
    ProbeFrame(c, d, now, now);
    RefillOk(d, later, now);
    ProbeFrame(Refill(d, later), SetTargetRate(d, target, later), later, later);
    ObserveProbeOk(SetTargetRate(d, target, later), s, now, limited, loss, later);
  }

  lemma LearnOk(c: Controller, s: Snapshot, m: Sample, now: int, later: int)
    requires ProbeOk(c, now) && now <= later && c.burst >= 0
    requires m.sentDelta > 0 && m.elapsed > 0 && s.minRTT > 0 && s.smoothedRTT > 0
    ensures ProbeOk(Learn(c, s, m, now, later), later)
  {
    AdoptOk(c, s, NewSamples(c, m), NewTarget(c, s, m), now, later, m.limited, LostBytes(m) != 0);
  }

  lemma DigestOk(c: Controller, s: Snapshot, now: int, later: int, clock: int)
    requires ProbeOk(c, clock) && clock <= now <= later && c.burst >= 0
    requires s.at > c.previous.at && s.sent >= c.previous.sent && s.minRTT >= 0 && s.smoothedRTT >= 0
    ensures ProbeOk(Digest(c, s, now, later), later)
  {
    InterruptedOk(c, s, now, clock);
    var d := Interrupted(c, s, now);
    ProbeFrame(d, d, now, later);
    var e := Record(d, s, now);
    ProbeFrame(d, e, now, now);
    AbortRecordedOk(e, now, later);
    var m := Measure(d.sleep, c.previous, s, now);
    if m.sentDelta > 0 && m.elapsed > 0 && s.minRTT > 0 && s.smoothedRTT > 0 { LearnOk(e, s, m, now, later); }
    DigestIsOneOf(c, s, now, later);
  }

  lemma AbortRecordedOk(e: Controller, now: int, later: int)
    requires ProbeOk(e, now) && (e.probe.active ==> now < e.probe.deadline) && now <= later
    ensures ProbeOk(Abort(e, now), later)
  {
    AbortOk(e, now, now);
    ProbeFrame(Abort(e, now), Abort(e, now), now, later);
  }

  lemma NewEpochOk(c: Controller, s: Snapshot, t1: int, t2: int, t3: int, clock: int)
    requires ProbeOk(c, clock) && clock <= t2 <= t3
    ensures ProbeOk(NewEpoch(c, s, t1, t2, t3), t3)
  {
    var d := Record(c, s, t1).(samples := []);
    ProbeFrame(c, d, clock, clock);
    RefillOk(d, t2, clock);
    var e := ResetProbe(d, t2);
    assert ProbeOk(e, t2);
    RefillOk(e, t3, t2);
    ProbeFrame(Refill(e, t3), SetTargetRate(e, c.initialRate, t3), t3, t3);
  }

  lemma ObserveOk(c: Controller, given: Snapshot, t: Readings, clock: int)
    requires ProbeOk(c, clock) && Bucket(c) && clock <= t.t1 <= t.t2 <= t.t3
    ensures ProbeOk(Observe(c, given, t), t.t3)
  {
    var s := Stamped(given, t.t0);
    if c.mode != Adaptive || Rejected(c, given, t) {
      ProbeFrame(c, c, clock, t.t3);
    } else if !c.haveSnapshot {
      ProbeFrame(c, Observe(c, given, t), clock, t.t3);
    } else if s.sent < c.previous.sent || s.idle < c.previous.idle {
      NewEpochOk(c, s, t.t1, t.t2, t.t3, clock);
    } else {
      DigestOk(c, s, t.t1, t.t2, clock);
      ProbeFrame(Digest(c, s, t.t1, t.t2), Observe(c, given, t), t.t2, t.t3);
    }
  }

  // ---- whole runs ----

  ghost predicate Good(c: Controller, clock: int) { Bucket(c) && ProbeOk(c, clock) && c.lastRefill <= clock }

  lemma RefundGood(c: Controller, clock: int, amount: int, now: int)
    requires Good(c, clock) && amount >= 0 && clock <= now
    ensures Good(Refund(c, amount, now), now) && Poorer(AccountAt(c, clock), AccountAt(Refund(c, amount, now), now))
  {
    if amount == 0 {
      ProbeFrame(c, c, clock, now);
      Rests(c, clock, c, now);
    } else {
      RefundNotRicher(c, amount, now);
      RefillOk(c, now, clock);
      RefillIsTimely(c, now, now);
      ProbeFrame(Refill(c, now), Refund(c, amount, now), now, now);
      Moves(c, clock, now, Refund(c, amount, now), now);
    }
  }

  lemma SetRateGood(c: Controller, clock: int, rate: int, now: int)
    requires Good(c, clock) && Enabled(c, clock, DoSetRate(rate, now))
    ensures Good(SetTargetRate(c, rate, now), now)
    ensures Poorer(AccountAt(c, clock), AccountAt(SetTargetRate(c, rate, now), now))
  {
    SetTargetNotRicher(c, rate, now);
    RefillOk(c, now, clock);
    RefillIsTimely(c, now, now);
    ProbeFrame(Refill(c, now), SetTargetRate(c, rate, now), now, now);
    Moves(c, clock, now, SetTargetRate(c, rate, now), now);
  }

  lemma AttemptGood(c: Controller, clock: int, amount: int, now: int, asleep: int)
    requires Good(c, clock) && Enabled(c, clock, DoAttempt(amount, now, asleep))
    ensures Good(Attempt(c, amount, now, asleep), asleep)
    ensures Poorer(AccountAt(c, clock), AccountAt(Attempt(c, amount, now, asleep), asleep))
  {
    AttemptNotRicher(c, amount, now, asleep);
    AttemptOk(c, amount, now, asleep, clock);
    RefillIsTimely(c, now, asleep);
    Moves(c, clock, now, Attempt(c, amount, now, asleep), asleep);
  }

  /** Every locked section keeps the invariant, and moves the account no further than time alone would. */
  lemma StepGood(c: Controller, clock: int, e: Event)
    requires Good(c, clock) && Enabled(c, clock, e)
    ensures Good(Apply(c, e), ClockAfter(e)) && Poorer(AccountAt(c, clock), AccountAt(Apply(c, e), ClockAfter(e)))
  {
    match e
    case DoAttempt(amount, now, asleep) => AttemptGood(c, clock, amount, now, asleep);
    case DoWake(now) =>
      ProbeFrame(c, Wake(c, now), clock, now);
      Rests(c, clock, Wake(c, now), now);
    case DoRefund(amount, now) => RefundGood(c, clock, amount, now);
    case DoObserve(s, t) =>
      ObserveMoves(c, s, t, clock);
      ObserveOk(c, s, t, clock);
      ObserveIsTimely(c, s, t);
    case DoSetRate(rate, now) => SetRateGood(c, clock, rate, now);
  }

  function ClockAfterRun(clock: int, events: seq<Event>): int
    decreases |events|
  {
    if events == [] then clock else ClockAfterRun(ClockAfter(events[0]), events[1..])
  }

  lemma {:induction false} RunGood(c: Controller, clock: int, events: seq<Event>, d: Controller)
    requires Good(c, clock) && Run(c, clock, events, d)
    ensures Good(d, ClockAfterRun(clock, events))
    ensures Poorer(AccountAt(c, clock), AccountAt(d, ClockAfterRun(clock, events)))
    decreases |events|
  {
    if events == [] {
      LaterIsPoorer(c, clock, clock);
    } else {
      var b, now, end := Apply(c, events[0]), ClockAfter(events[0]), ClockAfterRun(clock, events);
      StepGood(c, clock, events[0]);
      RunGood(b, now, events[1..], d);
      Compose(AccountAt(c, clock), AccountAt(b, now), AccountAt(d, end));
    }
  }

  /** States a controller can be in, with the latest clock reading: New, then any critical sections. */
  ghost predicate Reachable(c: Controller, clock: int) {
    exists k: Config, now: int, events ::
      Normalized(k) && Run(New(k, now), now, events, c) && clock == ClockAfterRun(now, events)
  }

  lemma NewGood(k: Config, now: int)
    requires Normalized(k)
    ensures Good(New(k, now), now)
  {
  }

  lemma ReachableGood(c: Controller, clock: int)
    requires Reachable(c, clock)
    ensures Good(c, clock)
  {
    var k: Config, now: int, events :|
      Normalized(k) && Run(New(k, now), now, events, c) && clock == ClockAfterRun(now, events);
    NewGood(k, now);
    RunGood(New(k, now), now, events, c);
  }

  /** Time passes. */
  lemma GoodLater(c: Controller, clock: int, t: int)
    requires Good(c, clock) && clock <= t
    ensures Good(c, t)
  {
    ProbeFrame(c, c, clock, t);
  }

  /** Between two critical sections that is the integral of RateAt. */
  lemma IntegratedOverGap(c: Controller, t: int, end: int)
    requires c.lastRefill <= t <= end
    ensures Integrated(c, end) - Integrated(c, t) == RateIntegral(c, t, end)
  {
    IntegralAdds(c, c.lastRefill, t, end);
  }

  /** A run goes on with one more section. */
  lemma {:induction false} RunOneMore(c: Controller, clock: int, events: seq<Event>, d: Controller, e: Event)
    requires Run(c, clock, events, d) && Enabled(d, ClockAfterRun(clock, events), e)
    ensures Run(c, clock, events + [e], Apply(d, e)) && ClockAfterRun(clock, events + [e]) == ClockAfter(e)
    decreases |events|
  {
    if events == [] {
      assert [e][1..] == [];
    } else {
      RunOneMore(Apply(c, events[0]), ClockAfter(events[0]), events[1..], d, e);
      assert (events + [e])[1..] == events[1..] + [e];
    }
  }

  lemma NewIsReachable(k: Config, now: int)
    requires Normalized(k)
    ensures Reachable(New(k, now), now)
  {
    assert Run(New(k, now), now, [], New(k, now)) && ClockAfterRun(now, []) == now;
  }

  lemma BurstIsPositive(c: Controller, clock: int)
    requires Reachable(c, clock)
    ensures c.burst > 0
  {
    var k: Config, now: int, events :|
      Normalized(k) && Run(New(k, now), now, events, c) && clock == ClockAfterRun(now, events);
    NewGood(k, now);
    RunGood(New(k, now), now, events, c);
  }

  lemma ReachableOneMore(c: Controller, clock: int, e: Event)
    requires Reachable(c, clock) && Enabled(c, clock, e)
    ensures Reachable(Apply(c, e), ClockAfter(e))
  {
    var k: Config, now: int, events :|
      Normalized(k) && Run(New(k, now), now, events, c) && clock == ClockAfterRun(now, events);
    RunOneMore(New(k, now), now, events, c, e);
  }

  /**
   * The pacing guarantee over every window of every run, from any `t` to any `end` after its last event:
   * bytes admitted less bytes refunded are at most one burst more than the rate in force integrates to over
   * that window, however long the bucket was idle before it.
   */
  lemma AdmissionBound(c: Controller, clock: int, t: int, events: seq<Event>, d: Controller, end: int)
    requires Reachable(c, clock) && clock <= t && Run(c, t, events, d) && ClockAfterRun(t, events) <= end
    ensures (d.admitted - c.admitted) as real - (d.refunded - c.refunded) as real
         <= c.burst as real + (Integrated(d, end) - Integrated(c, t))
    ensures 0.0 <= d.tokens <= d.burst as real && d.burst == c.burst
  {
    WindowIsPoorer(c, clock, t, events, d, end);
    IntegralNonNegative(d, d.lastRefill, end);
  }

  lemma WindowIsPoorer(c: Controller, clock: int, t: int, events: seq<Event>, d: Controller, end: int)
    requires Reachable(c, clock) && clock <= t && Run(c, t, events, d) && ClockAfterRun(t, events) <= end
    ensures Good(c, t) && Good(d, end) && t <= end && Poorer(AccountAt(c, t), AccountAt(d, end))
  {
    ReachableGood(c, clock);
    GoodLater(c, clock, t);
    RunGood(c, t, events, d);
    var now := ClockAfterRun(t, events);
    LaterIsPoorer(d, now, end);
    Compose(AccountAt(c, t), AccountAt(d, now), AccountAt(d, end));
    GoodLater(d, now, end);
    RunTakesTime(c, t, events, d);
  }

  lemma {:induction false} RunTakesTime(c: Controller, clock: int, events: seq<Event>, d: Controller)
    requires Run(c, clock, events, d)
    ensures clock <= ClockAfterRun(clock, events)
    decreases |events|
  {
    if events == [] {
    } else {
      RunTakesTime(Apply(c, events[0]), ClockAfter(events[0]), events[1..], d);
    }
  }

  /** Outside bypass mode the sleep of admit always divides by a positive rate. */
  lemma PacingRateIsPositive(c: Controller, clock: int)
    requires Reachable(c, clock) && c.mode != Reno
    ensures c.targetRate > 0 && PacingRate(c) > 0
  {
    ReachableGood(c, clock);
  }

  /** The sleep of admit is computed at a positive rate. */
  lemma PassRateIsPositive(c: Controller, clock: int, amount: int, now: int)
    requires Reachable(c, clock) && c.mode != Reno
    ensures PacingRate(YieldProbe(Refill(c, now), amount, now)) > 0
  {
    ReachableGood(c, clock);
    RefillRates(c, now);
  }

  /** In adaptive mode that is a fixed ceiling: one burst plus the maximum rate over the window's length. */
  lemma AdaptiveCeiling(c: Controller, clock: int, t: int, events: seq<Event>, d: Controller, end: int)
    requires Reachable(c, clock) && clock <= t && Run(c, t, events, d) && ClockAfterRun(t, events) <= end
    requires c.mode == Adaptive
    ensures (d.admitted - c.admitted) as real - (d.refunded - c.refunded) as real
         <= c.burst as real + Credit(end - t, c.maximumRate)
  {
    WindowIsPoorer(c, clock, t, events, d, end);
    AdmissionBound(c, clock, t, events, d, end);
    WindowCeiling(c, t, d, end);
  }

  lemma WindowCeiling(c: Controller, t: int, d: Controller, end: int)
    requires c.lastRefill <= t && d.lastRefill <= end && c.mode == Adaptive
    requires Poorer(AccountAt(c, t), AccountAt(d, end))
    ensures Integrated(d, end) - Integrated(c, t) <= Credit(end - t, c.maximumRate)
  {
  }

  /**
   * Probe limits over every run: each probe admits at most 1 MiB, lasts at most two seconds, stays at
   * or below the configured maximum rate, and a second passes before the next one starts.
   */
  lemma ProbesAreBounded(c: Controller, clock: int)
    requires Reachable(c, clock)
    ensures forall i :: 0 <= i < |c.excursions| ==> ExcursionOk(c.maximumRate, c.excursions[i])
    ensures forall i :: 0 <= i < |c.excursions| - 1 ==>
      c.excursions[i].end + MINIMUM_PROBE_GAP <= c.excursions[i + 1].start
    ensures c.probe.active ==>
      && c.probeAdmitted <= MAXIMUM_PROBE_BYTES && c.probe.rate <= c.maximumRate
      && c.probe.deadline <= c.probeStart + MAXIMUM_PROBE_DURATION
      && EndedBy(c.excursions, c.probeStart - MINIMUM_PROBE_GAP)
  {
    ReachableGood(c, clock);
  }

  // ---- the computed sleep is exactly long enough ----

  lemma CeilBounds(x: real)
    ensures x <= Ceil(x) as real < x + 1.0
  {
  }

  /** The sleep earns at least the missing tokens, and one nanosecond less would not. */
  lemma DelayIsExact(missing: real, rate: int)
    requires missing > 0.0 && rate > 0 && DurationForBytes(missing, rate) < MAX_INT64
    ensures var d := DurationForBytes(missing, rate);
      Credit(d, rate) >= missing && Credit(d - 1, rate) < missing
  {
    var r := rate as real;
    var q := missing / r;
    var x := q * 1_000_000_000.0;
    assert q * r == missing;
    if q <= 0.0 { MultiplyOrdered(q, 0.0, r); }
    CeilBounds(x);
    var d := DurationForBytes(missing, rate);
    assert d == Ceil(x);
    Rescale(q, r);
    Earned(d, rate, x, missing);
    Earned(d - 1, rate, x, missing);
  }

  lemma Earned(elapsed: int, rate: int, x: real, missing: real)
    requires rate > 0 && x * rate as real == missing * 1_000_000_000.0
    ensures elapsed as real >= x ==> Credit(elapsed, rate) >= missing
    ensures elapsed as real < x ==> Credit(elapsed, rate) < missing
  {
    var e := elapsed as real;
    if e >= x { MultiplyOrdered(x, e, rate as real); } else { StrictlyOrdered(e, x, rate as real); }
  }

  lemma Rescale(q: real, r: real)
    ensures q * 1_000_000_000.0 * r == q * r * 1_000_000_000.0
  {
  }

  /** A chunk that has to wait and then finds nothing changed is admitted at its first retry. */
  lemma SleepThenGranted(c: Controller, amount: int, now: int)
    requires Bucket(c) && c.lastRefill == now && !c.probe.active && c.targetRate > 0
    requires c.tokens < amount as real && amount <= c.burst
    requires DurationForBytes(amount as real - c.tokens, c.targetRate) < MAX_INT64
    ensures Refill(c, now + DelayFor(c, amount, now)).tokens >= amount as real
  {
    var delay := DelayFor(c, amount, now);
    DelayIsExact(amount as real - c.tokens, c.targetRate);
    RefillTokens(c, now + delay);
  }
}
