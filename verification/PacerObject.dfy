/** The controller as the source writes it: locked sections that assign its fields one by one. */
module PacerObject {
  import opened Basics
  import opened Estimator
  import P = Pacer
  import opened PacerProofs
  import W = PacerWaits
  import L = PacerLaws
  import R = PacerRates

  class Controller {
    const mode: P.Mode
    const profile: Profile
    const initialRate: int
    const minimumRate: int
    const maximumRate: int
    const burst: int
    const estimator: AdaptiveEstimator
    var targetRate: int
    var tokens: real
    var lastRefill: int
    var haveSnapshot: bool
    var previous: P.Snapshot
    var probe: P.Probe
    var sleep: P.Sleep
    ghost var minted: real
    ghost var admitted: int
    ghost var refunded: int
    ghost var probeStart: int
    ghost var probeAdmitted: int
    ghost var excursions: seq<P.Excursion>
    ghost var clock: int

    /** Between locked sections the controller is in a state that some run of them reaches; every guarantee
        over runs holds of it. `clock` is the latest reading. */
    ghost predicate Valid()
      reads this, estimator, estimator.rates
    {
      Wired() && Reachable(State(), clock)
    }

    ghost predicate Wired()
      reads this, estimator, estimator.rates
    {
      && estimator.Valid() && this as object != estimator
      && estimator.initialRate == initialRate as real && estimator.settings == SettingsFor(profile)
    }

    ghost function State(): P.Controller
      reads this, estimator
    {
      P.Controller(mode, profile, initialRate, minimumRate, maximumRate, targetRate, burst, tokens, lastRefill,
                   haveSnapshot, previous, estimator.history, probe, sleep, minted, admitted, refunded,
                   probeStart, probeAdmitted, excursions)
    }

    constructor (k: P.Config, now: int)
      requires P.Normalized(k)
      ensures Valid() && clock == now && fresh(estimator) && fresh(estimator.rates) && State() == P.New(k, now)
    {
      mode, profile, burst := k.mode, k.profile, k.burst;
      initialRate, minimumRate, maximumRate := k.initial, k.minimum, k.maximum;
      targetRate := match k.mode case Adaptive => k.initial case FixedRate => k.fixed case Reno => 0;
      tokens, lastRefill := k.burst as real, now;
      haveSnapshot, previous := false, P.Snapshot(0, 0, 0, 0, 0, 0);
      probe, sleep := P.NO_PROBE, P.Sleep(0, false, 0, 0, 0);
      minted, admitted, refunded, probeStart, probeAdmitted, excursions := 0.0, 0, 0, 0, 0, [];
      clock := now;
      estimator := new AdaptiveEstimator(k.profile, k.initial as real);
      new;
      NewIsReachable(k, now);
    }

    method RefillAtRate(now: int, rate: int)
      modifies `tokens, `lastRefill
      ensures State() == P.RefillAtRate(old(State()), now, rate)
    {
      var elapsed := now - lastRefill;
      if elapsed <= 0 { return; }
      tokens := tokens + P.Credit(elapsed, rate);
      if tokens > burst as real { tokens := burst as real; }
      lastRefill := now;
    }

    method FinishProbe(now: int)
      modifies `probe, `excursions
      ensures State() == P.Finish(old(State()), now)
    {
      excursions := excursions + [P.Excursion(probeStart, now, probe.rate, probeAdmitted)];
      probe := probe.(active := false);
      probe := probe.(pending := true);
      probe := probe.(outcomeDeadline := now + Max(250 * P.MILLISECOND, 2 * probe.window));
      probe := probe.(eligibleSamples := 0);
    }

    method ResolveProbe(now: int, success: bool)
      modifies `probe, `excursions
      ensures State() == P.Resolve(old(State()), now, success)
    {
      if probe.active { excursions := excursions + [P.Excursion(probeStart, now, probe.rate, probeAdmitted)]; }
      probe := probe.(active := false, pending := false, eligibleSamples := 0);
      if success {
        probe := probe.(backoff := 0);
      } else {
        probe := probe.(backoff := Min(P.MAXIMUM_PROBE_BACKOFF, Max(2 * P.MINIMUM_PROBE_GAP, 2 * probe.backoff)));
      }
      probe := probe.(nextAt := now + Max(probe.gap, probe.backoff));
    }

    method AbortProbe(now: int)
      modifies `probe, `excursions
      ensures State() == P.Abort(old(State()), now)
    {
      if probe.active || probe.pending { ResolveProbe(now, false); }
      probe := probe.(eligibleSamples := 0);
    }

    method Refill(now: int)
      modifies `tokens, `lastRefill, `probe, `excursions, `minted
      ensures State() == P.Refill(old(State()), now)
    {
      ghost var gain := P.RateIntegral(State(), lastRefill, now);
      if probe.active && now >= probe.deadline {
        RefillAtRate(probe.deadline, probe.rate);
        FinishProbe(probe.deadline);
      }
      RefillAtRate(now, if probe.active then probe.rate else targetRate);
      if probe.pending && now >= probe.outcomeDeadline { ResolveProbe(now, false); }
      minted := minted + gain;
    }

    method SetTargetRate(rate: int, now: int)
      modifies `tokens, `lastRefill, `probe, `excursions, `minted, `targetRate
      ensures State() == P.SetTargetRate(old(State()), rate, now)
    {
      Refill(now);
      if targetRate == rate { return; }
      targetRate := rate;
    }

    method ResetProbe(now: int)
      modifies `tokens, `lastRefill, `probe, `excursions, `minted
      ensures State() == P.ResetProbe(old(State()), now)
    {
      Refill(now);
      if probe.active { excursions := excursions + [P.Excursion(probeStart, now, probe.rate, probeAdmitted)]; }
      probe := P.NO_PROBE;
    }

    method SetFixedRate(rate: int, now: int) returns (ok: bool)
      requires Valid() && clock <= now
      modifies `tokens, `lastRefill, `probe, `excursions, `minted, `targetRate, `clock
      ensures Valid() && ok == (mode == P.FixedRate && P.InRange(rate))
      ensures State() == (if ok then P.SetTargetRate(old(State()), rate, now) else old(State()))
      ensures clock == (if ok then now else old(clock)) && (ok ==> targetRate == rate)
      ensures ok ==> forall t :: P.RateAt(State(), t) == rate
    {
      if mode != P.FixedRate || !P.InRange(rate) { return false; }
      ReachableOneMore(State(), clock, P.DoSetRate(rate, now));
      R.FixedRateHolds(State(), clock, rate, now);
      SetTargetRate(rate, now);
      clock := now;
      return true;
    }

    /** One pass of the loop in admit, up to the sleep. */
    method Attempt(amount: int, now: int, asleep: int) returns (v: P.Verdict)
      requires Valid() && mode != P.Reno && 0 < amount <= burst && clock <= now <= asleep
      modifies `tokens, `lastRefill, `probe, `excursions, `minted, `admitted, `probeAdmitted, `sleep, `clock
      ensures Valid() && clock == asleep && State() == P.Attempt(old(State()), amount, now, asleep)
      ensures v.Granted? <==> P.Grants(old(State()), amount, now)
      ensures v.Wait? ==> var d := P.YieldProbe(P.Refill(old(State()), now), amount, now);
                          P.PacingRate(d) > 0 && v.delay == P.DelayFor(d, amount, now)
    {
      ReachableOneMore(State(), clock, P.DoAttempt(amount, now, asleep));
      PassRateIsPositive(State(), clock, amount, now);
      clock := asleep;
      Refill(now);
      YieldProbe(amount, now);
      v := Spend(amount, now, asleep);
    }

    /** The part of a pass after the refill. */
    method Spend(amount: int, now: int, asleep: int) returns (v: P.Verdict)
      requires P.PacingRate(State()) > 0
      modifies `tokens, `probe, `excursions, `admitted, `probeAdmitted, `sleep
      ensures State() == P.Spend(old(State()), amount, now, asleep)
      ensures v == if old(tokens) >= amount as real then P.Granted else P.Wait(P.DelayFor(old(State()), amount, now))
    {
      if tokens >= amount as real {
        Charge(amount, now);
        return P.Granted;
      }
      var missing := amount as real - tokens;
      var delay := P.DurationForBytes(missing, if probe.active then probe.rate else targetRate);
      if probe.active { delay := Min(delay, probe.deadline - now); }
      if mode == P.Adaptive { sleep := sleep.(started := asleep, sleeping := true); }
      return P.Wait(delay);
    }

    method YieldProbe(amount: int, now: int)
      modifies `probe, `excursions
      ensures State() == P.YieldProbe(old(State()), amount, now)
    {
      if probe.active && amount as real > probe.remaining { FinishProbe(now); }
    }

    method Charge(amount: int, now: int)
      modifies `tokens, `probe, `excursions, `admitted, `probeAdmitted
      ensures State() == P.Charge(old(State()), amount, now)
    {
      tokens := tokens - amount as real;
      admitted := admitted + amount;
      if probe.active {
        probe := probe.(remaining := probe.remaining - amount as real);
        probeAdmitted := probeAdmitted + amount;
        if probe.remaining == 0.0 { FinishProbe(now); }
      }
    }

    method PacingTime(now: int) returns (elapsed: int)
      ensures elapsed == P.PacingTime(sleep, now)
    {
      elapsed := sleep.total;
      if sleep.sleeping && now > sleep.started { elapsed := elapsed + (now - sleep.started); }
    }

    /** The section after the sleep. */
    method Wake(now: int)
      requires Valid() && clock <= now
      modifies `sleep, `clock
      ensures Valid() && clock == now && State() == P.Wake(old(State()), now)
    {
      ReachableOneMore(State(), clock, P.DoWake(now));
      clock := now;
      if mode == P.Adaptive {
        var total := PacingTime(now);
        sleep := sleep.(total := total, started := 0, sleeping := false);
      }
    }

    method Refund(amount: int, now: int)
      requires Valid() && amount >= 0 && clock <= now
      modifies `tokens, `lastRefill, `probe, `excursions, `minted, `refunded, `clock
      ensures Valid() && clock == now && State() == P.Refund(old(State()), amount, now)
    {
      ReachableOneMore(State(), clock, P.DoRefund(amount, now));
      clock := now;
      if amount == 0 { return; }
      Refill(now);
      GiveBack(amount);
    }

    method GiveBack(amount: int)
      modifies `tokens, `refunded
      ensures State() == P.GiveBack(old(State()), amount)
    {
      tokens := tokens + amount as real;
      if tokens > burst as real { tokens := burst as real; }
      refunded := refunded + amount;
    }

    // ---- Observe ----

    method Record(s: P.Snapshot, now: int)
      modifies `previous, `sleep
      ensures State() == P.Record(old(State()), s, now)
    {
      previous := s;
      var total := PacingTime(now);
      sleep := sleep.(previousObservation := now, previousTotal := total);
    }

    method ObserveProbe(s: P.Snapshot, now: int, limited: bool, loss: bool)
      requires Wired()
      modifies `probe, `excursions, `probeStart, `probeAdmitted
      ensures Wired() && State() == P.ObserveProbe(old(State()), s, now, limited, loss)
    {
      if profile == Conservative { return; }
      var capacity := estimator.BandwidthEstimate();
      if probe.active || probe.pending {
        if loss || P.RttRose(probe, s.smoothedRTT) {
          AbortProbe(now);
        } else if capacity > probe.entryCapacity * 1.02 {
          ResolveProbe(now, true);
        } else if !limited {
          AbortProbe(now);
        }
        return;
      }
      if loss || !limited || estimator.count == 0 || targetRate as real >= capacity * 0.95 {
        probe := probe.(eligibleSamples := 0);
        return;
      }
      CountEligible(s.smoothedRTT, now);
      Consider(s, capacity, now);
    }

    method CountEligible(rtt: int, now: int)
      modifies `probe
      ensures probe == P.CountEligible(old(probe), rtt, now)
    {
      if P.RttRose(probe, rtt) { probe := probe.(eligibleSamples := 0); }
      if probe.eligibleSamples == 0 { probe := probe.(eligibleSince := now, eligibleRTT := rtt); }
      if probe.eligibleSamples < 3 { probe := probe.(eligibleSamples := probe.eligibleSamples + 1); }
    }

    method Consider(s: P.Snapshot, capacity: real, now: int)
      modifies `probe, `probeStart, `probeAdmitted
      ensures State() == P.Consider(old(State()), s, capacity, now)
    {
      if probe.eligibleSamples < 3 || now - probe.eligibleSince < P.SECOND || now < probe.nextAt { return; }
      var plan := P.MakePlan(P.PlanInput(profile, maximumRate, targetRate, burst), s, capacity);
      if plan == P.NoPlan { return; }
      probe := probe.(active := true, rate := plan.rate, remaining := plan.budget as real);
      probe := probe.(deadline := now + plan.duration, entryCapacity := capacity, entryRTT := s.smoothedRTT);
      probe := probe.(window := plan.window, gap := plan.gap, eligibleSamples := 0);
      probeStart, probeAdmitted := now, 0;
    }

    /** Feeds the estimator and clamps its answer to the configured range. */
    method Retarget(s: P.Snapshot, m: P.Sample) returns (rate: int)
      requires Wired() && m.sentDelta > 0 && m.elapsed > 0 && s.minRTT > 0 && s.smoothedRTT > 0
      modifies estimator, estimator.rates
      ensures Wired() && rate == P.NewTarget(old(State()), s, m)
      ensures State() == old(State()).(samples := P.NewSamples(old(State()), m))
    {
      var target := estimator.Observe(P.DeliveredRate(m), P.LossRatio(m), s.minRTT, s.smoothedRTT, m.limited);
      rate := P.Clamp(minimumRate, maximumRate, target);
    }

    method Learn(s: P.Snapshot, m: P.Sample, now: int, later: int)
      requires Wired() && m.sentDelta > 0 && m.elapsed > 0 && s.minRTT > 0 && s.smoothedRTT > 0
      modifies this, estimator, estimator.rates
      ensures Wired() && clock == old(clock) && State() == P.Learn(old(State()), s, m, now, later)
    {
      var rate := Retarget(s, m);
      Adopt(s, rate, now, later, m.limited, P.LostBytes(m) != 0);
    }

    /** The new target takes effect before the probe is reconsidered. */
    method Adopt(s: P.Snapshot, rate: int, now: int, later: int, limited: bool, loss: bool)
      requires Wired()
      modifies `tokens, `lastRefill, `probe, `excursions, `minted, `targetRate, `probeStart, `probeAdmitted
      ensures Wired()
      ensures State() == P.ObserveProbe(P.SetTargetRate(old(State()), rate, later), s, now, limited, loss)
    {
      SetTargetRate(rate, later);
      ObserveProbe(s, now, limited, loss);
    }

    /** Loss or a growing queue ends an excursion at once. */
    method Interrupt(s: P.Snapshot, now: int)
      modifies `tokens, `lastRefill, `probe, `excursions, `minted
      ensures State() == P.Interrupted(old(State()), s, now)
    {
      Refill(now);
      if s.lost > previous.lost || P.RttRose(probe, s.smoothedRTT) { AbortProbe(now); }
    }

    method Settle(s: P.Snapshot, m: P.Sample, now: int, later: int)
      requires Wired() && m.sentDelta >= 0 && m.elapsed > 0 && s.minRTT >= 0 && s.smoothedRTT >= 0
      modifies this, estimator, estimator.rates
      ensures Wired() && clock == old(clock) && State() == P.Settle(old(State()), s, m, now, later)
    {
      var window := P.StableSampleWindow(s.minRTT);
      if m.idleDelta >= window && m.idleDelta >= m.elapsed / 2 {
        AbortProbe(now);
      } else if m.sentDelta == 0 || s.minRTT == 0 || s.smoothedRTT == 0 {
        AbortProbe(now);
      } else {
        Learn(s, m, now, later);
      }
    }

    method Digest(s: P.Snapshot, now: int, later: int)
      requires Wired()
      requires s.at > previous.at && s.sent >= previous.sent && s.minRTT >= 0 && s.smoothedRTT >= 0
      modifies this, estimator, estimator.rates
      ensures Wired() && clock == old(clock) && State() == P.Digest(old(State()), s, now, later)
    {
      Interrupt(s, now);
      var m := P.Measure(sleep, previous, s, now);
      if m.elapsed < P.StableSampleWindow(s.minRTT) { return; }
      Record(s, now);
      Settle(s, m, now, later);
    }

    /** A counter that went back starts a new epoch. */
    method StartEpoch(s: P.Snapshot, t: P.Readings)
      requires Wired()
      modifies this, estimator, estimator.rates
      ensures Wired() && clock == old(clock) && State() == P.NewEpoch(old(State()), s, t.t1, t.t2, t.t3)
    {
      Record(s, t.t1);
      estimator.Reset();
      ResetProbe(t.t2);
      SetTargetRate(initialRate, t.t3);
    }

    method Observe(given: P.Snapshot, t: P.Readings) returns (accepted: bool)
      requires Valid() && clock <= t.t1 <= t.t2 <= t.t3
      modifies this, estimator, estimator.rates
      ensures Valid() && clock == t.t3 && State() == P.Observe(old(State()), given, t)
      ensures accepted == !P.Rejected(old(State()), given, t)
    {
      ReachableOneMore(State(), clock, P.DoObserve(given, t));
      accepted := Take(given, t);
      clock := t.t3;
    }

    method Take(given: P.Snapshot, t: P.Readings) returns (accepted: bool)
      requires Wired()
      modifies this, estimator, estimator.rates
      ensures Wired() && clock == old(clock) && State() == P.Observe(old(State()), given, t)
      ensures accepted == !P.Rejected(old(State()), given, t)
    {
      if mode != P.Adaptive { return true; }
      if given.minRTT < 0 || given.smoothedRTT < 0 || given.idle < 0 { return false; }
      var s := if given.at == 0 then given.(at := t.t0) else given;
      if !haveSnapshot {
        Record(s, t.t1);
        haveSnapshot := true;
        return true;
      }
      if s.at <= previous.at { return false; }
      if s.sent < previous.sent || s.idle < previous.idle {
        StartEpoch(s, t);
      } else {
        Digest(s, t.t1, t.t2);
      }
      return true;
    }

    // ---- Wait ----

    /** One turn of the loop in admit: a pass, and if it is refused the sleep after it. */
    method Turn(amount: int, p: Pass, ghost start: P.Controller, ghost n: int) returns (granted: bool)
      requires Valid() && mode != P.Reno && 0 < amount <= burst && clock <= p.now <= p.asleep <= p.woken
      requires L.Keeps(start, n, State()) && L.Taken(start, State()) + amount <= n
      modifies `tokens, `lastRefill, `probe, `excursions, `minted, `admitted, `probeAdmitted, `sleep, `clock
      ensures Valid() && clock == (if granted then p.asleep else p.woken) && L.Keeps(start, n, State())
      ensures admitted == old(admitted) + if granted then amount else 0
      ensures !granted ==> tokens < amount as real && lastRefill >= p.now
    {
      L.AdmissionIsExact(State(), clock, amount, p.now, p.asleep);
      L.PassKeeps(start, n, State(), clock, amount, p.now, p.asleep, p.woken);
      var v := Attempt(amount, p.now, p.asleep);
      if v.Granted? { return true; }
      Wake(p.woken);
      return false;
    }

    /** admit for one chunk, driven by what happens at each pass. It fails when the context ends, at the latest
        with the last pass; a pass that was refused found too few tokens. `used` counts the passes. */
    method Admit(amount: int, passes: seq<Pass>, from: nat, end: int, ghost start: P.Controller, ghost n: int)
      returns (granted: bool, used: nat)
      requires Valid() && mode != P.Reno && 0 < amount <= burst && from <= |passes|
      requires InOrder(clock, passes, from, end)
      requires L.Keeps(start, n, State()) && L.Taken(start, State()) + amount <= n
      modifies `tokens, `lastRefill, `probe, `excursions, `minted, `admitted, `probeAdmitted, `sleep, `clock
      ensures Valid() && used <= |passes| && InOrder(clock, passes, used, end) && L.Keeps(start, n, State())
      ensures admitted == old(admitted) + if granted then amount else 0
      ensures granted ==> used > from
      ensures !granted ==> used == |passes| || (from < used && Ends(passes[used - 1]))
      ensures !granted && from < used && !passes[used - 1].cancelled ==> Refused(amount, passes[used - 1])
    {
      used := from;
      while used < |passes|
        invariant Valid() && from <= used <= |passes| && InOrder(clock, passes, used, end)
        invariant admitted == old(admitted) && refunded == old(refunded) && L.Keeps(start, n, State())
        invariant from < used ==> Refused(amount, passes[used - 1])
        decreases |passes| - used
      {
        var p := passes[used];
        used := used + 1;
        if p.cancelled {
          InOrderEarlier(clock, p.woken, passes, used, end);
          return false, used;
        }
        granted := Turn(amount, p, start, n);
        InOrderEarlier(clock, p.woken, passes, used, end);
        if granted || p.interrupted { return granted, used; }
      }
      return false, used;
    }

    /** The bucket was refilled at this pass and did not cover the chunk. */
    ghost predicate Refused(amount: int, p: Pass)
      reads this
    {
      tokens < amount as real && lastRefill >= p.now
    }

    /** The way out of Wait when admit failed: what was taken is given back. */
    method GiveUp(taken: int, end: int, ghost start: P.Controller, ghost n: int)
      requires Valid() && clock <= end && L.Keeps(start, n, State()) && Bucket(start)
      requires taken == admitted - start.admitted >= 0 && refunded == start.refunded
      modifies `tokens, `lastRefill, `probe, `excursions, `minted, `refunded, `clock
      ensures Valid() && clock == end && admitted == old(admitted) && L.CostNothing(start, n, State(), end)
    {
      ghost var before, time := State(), clock;
      Refund(taken, end);
      L.FailedCallCostsNothing(start, n, before, time, end, State());
    }

    /** One turn of the loop in Wait: the next chunk is admitted, or everything taken so far is given back. */
    method TakeChunk(remaining: int, taken: int, passes: seq<Pass>, from: nat, end: int,
                     ghost start: P.Controller, ghost n: int)
      returns (chunk: int, used: nat)
      requires Valid() && mode != P.Reno && from <= |passes| && InOrder(clock, passes, from, end)
      requires L.Keeps(start, n, State()) && Bucket(start) && taken == admitted - start.admitted >= 0
      requires refunded == start.refunded && remaining > 0 && taken + remaining == n
      modifies `tokens, `lastRefill, `probe, `excursions, `minted, `admitted, `probeAdmitted, `sleep, `refunded, `clock
      ensures Valid() && 0 <= chunk <= remaining && admitted == old(admitted) + chunk && clock <= end
      ensures chunk > 0 ==>
        && used <= |passes| && InOrder(clock, passes, used, end) && refunded == old(refunded)
        && L.Keeps(start, n, State())
      ensures chunk == 0 ==>
        && L.CostNothing(start, n, State(), end)
        && (used == |passes| || (0 < used < |passes| && Ends(passes[used - 1])))
    {
      BurstIsPositive(State(), clock);
      chunk := if remaining > burst then burst else remaining;
      var granted;
      granted, used := Admit(chunk, passes, from, end, start, n);
      InOrderEnds(clock, passes, used, end);
      if !granted {
        GiveUp(taken, end, start, n);
        chunk := 0;
      }
    }

    /** The loop of Wait: chunks of at most one burst. */
    method Serve(n: int, passes: seq<Pass>, end: int) returns (ok: bool, used: nat)
      requires Valid() && InOrder(clock, passes, 0, end) && n > 0 && mode != P.Reno
      modifies `tokens, `lastRefill, `probe, `excursions, `minted, `admitted, `probeAdmitted, `sleep, `refunded, `clock
      ensures Valid() && clock <= end
      ensures ok ==> admitted == old(admitted) + n && refunded == old(refunded)
      ensures !ok ==> L.CostNothing(old(State()), n, State(), end) && 0 <= admitted - old(admitted) <= n
      ensures !ok ==> used == |passes| || (0 < used < |passes| && Ends(passes[used - 1]))
    {
      ghost var start := State();
      ReachableGood(start, clock);
      L.StartsKept(start, n);
      InOrderEnds(clock, passes, 0, end);
      var remaining, taken := n, 0;
      used := 0;
      while remaining > 0
        invariant Valid() && used <= |passes| && InOrder(clock, passes, used, end) && clock <= end
        invariant 0 <= remaining && 0 <= taken == n - remaining
        invariant admitted == start.admitted + taken && refunded == start.refunded
        invariant L.Keeps(start, n, State())
      {
        var chunk;
        chunk, used := TakeChunk(remaining, taken, passes, used, end, start, n);
        if chunk == 0 { return false, used; }
        taken, remaining := taken + chunk, remaining - chunk;
      }
      return true, used;
    }

    /** Wait: a call that fails has cost nothing. */
    method Wait(n: int, passes: seq<Pass>, end: int) returns (ok: bool, used: nat)
      requires Valid() && InOrder(clock, passes, 0, end)
      modifies `tokens, `lastRefill, `probe, `excursions, `minted, `admitted, `probeAdmitted, `sleep, `refunded, `clock
      ensures Valid() && clock <= end
      ensures ok ==> n >= 0 && refunded == old(refunded) && admitted == old(admitted) + if mode == P.Reno then 0 else n
      ensures !ok ==> L.CostNothing(old(State()), Max(n, 0), State(), end)
      ensures !ok ==> 0 <= admitted - old(admitted) <= Max(n, 0) && (n < 0 || mode != P.Reno)
      ensures !ok && n >= 0 ==> used == |passes| || (0 < used < |passes| && Ends(passes[used - 1]))
    {
      InOrderEnds(clock, passes, 0, end);
      if n < 0 { return false, 0; }
      if n == 0 || mode == P.Reno { return true, 0; }
      ok, used := Serve(n, passes, end);
    }
  }

  /** New: refuses exactly the configurations that are not sound once defaults are filled in. */
  method Make(raw: P.Config, now: int) returns (c: Option<Controller>)
    ensures c.Some? <==> P.Normalized(P.WithDefaults(raw))
    ensures c.Some? ==> fresh(c.value) && c.value.Valid() && c.value.State() == P.New(P.WithDefaults(raw), now)
    ensures c.Some? ==>
      && c.value.initialRate == (if raw.initial == 0 then 8_000_000 else raw.initial)
      && c.value.minimumRate == (if raw.minimum == 0 then 65_536 else raw.minimum)
      && c.value.maximumRate == (if raw.maximum == 0 then 1_073_741_824 else raw.maximum)
      && c.value.burst == (if raw.burst == 0 then 65_536 else raw.burst) && c.value.tokens == c.value.burst as real
    ensures c.Some? ==>
      c.value.targetRate ==
        match raw.mode case Adaptive => c.value.initialRate case FixedRate => raw.fixed case Reno => 0
  {
    var k := P.WithDefaults(raw);
    if !P.InRange(k.initial) || !P.InRange(k.minimum) || !P.InRange(k.maximum) || !P.InRange(k.burst) { return None; }
    if k.minimum > k.initial || k.initial > k.maximum { return None; }
    if k.mode == P.FixedRate && !P.InRange(k.fixed) { return None; }
    var controller := new Controller(k, now);
    return Some(controller);
  }

  /** What happens at one pass of admit: whether the context has ended at its start, the clock readings, and
      whether the context ends the sleep. */
  datatype Pass = Pass(cancelled: bool, now: int, asleep: int, woken: int, interrupted: bool)

  /** Such a pass is the last one: the context has ended. */
  predicate Ends(p: Pass) { p.cancelled || p.interrupted }

  /** From pass `i` on the clock never goes back from one pass to the next, and `end` comes last. */
  predicate InOrder(clock: int, passes: seq<Pass>, i: nat, end: int)
    requires i <= |passes|
    decreases |passes| - i
  {
    if i == |passes| then clock <= end
    else
      && clock <= passes[i].now <= passes[i].asleep <= passes[i].woken
      && InOrder(passes[i].woken, passes, i + 1, end)
  }

  lemma InOrderEarlier(a: int, b: int, passes: seq<Pass>, i: nat, end: int)
    requires i <= |passes| && a <= b && InOrder(b, passes, i, end)
    ensures InOrder(a, passes, i, end)
  {
  }

  lemma {:induction false} InOrderEnds(clock: int, passes: seq<Pass>, i: nat, end: int)
    requires i <= |passes| && InOrder(clock, passes, i, end)
    ensures clock <= end
    decreases |passes| - i
  {
    if i == |passes| {
    } else {
      InOrderEnds(passes[i].woken, passes, i + 1, end);
    }
  }
}
