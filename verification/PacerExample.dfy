/** A call that fails while a probe runs can cost tokens: one run of the controller in which it does. */
module PacerExample {
  import opened Basics
  import opened Estimator
  import opened Pacer
  import opened PacerProofs
  import opened PacerLaws

  const CONFIG := Config(Adaptive, Balanced, 80, 1, 1000, 0, 2)

  /** A round trip ten times its minimum: the target falls to 0.6 * 1.08 of the estimate. */
  function Sent(second: int, bytes: nat): Snapshot {
    Snapshot(second * SECOND, bytes, 0, 10 * MILLISECOND, 100 * MILLISECOND, 0)
  }

  function Look(second: int, bytes: nat): Event {
    DoObserve(Sent(second, bytes),
              Readings(second * SECOND, second * SECOND, second * SECOND, second * SECOND))
  }

  /** The controller after `second` seconds, between its observations. */
  function Looked(second: int, bytes: nat, tokens: real, target: int, samples: seq<real>, probe: Probe, sleep: Sleep,
                  minted: real, admitted: int): Controller {
    Controller(Adaptive, Balanced, 80, 1, 1000, target, 2, tokens, second * SECOND, true, Sent(second, bytes), samples,
               probe, sleep, minted, admitted, 0, 0, 0, [])
  }

  function Counted(samples: int): Probe {
    NO_PROBE.(eligibleSamples := samples, eligibleSince := 3 * SECOND, eligibleRTT := 100 * MILLISECOND)
  }

  /** Asleep since the second second. */
  function Asleep(second: int): Sleep { Sleep(2 * SECOND, true, 0, (second - 2) * SECOND, second * SECOND) }

  const START := New(CONFIG, SECOND)
  const FIRST_LOOK := Looked(1, 0, 2.0, 80, [], NO_PROBE, Sleep(0, false, 0, 0, SECOND), 0.0, 0)
  const SECOND_LOOK := Looked(2, 80, 2.0, 52, [80.0], NO_PROBE, Sleep(0, false, 0, 0, 2 * SECOND), 80.0, 0)

  const DRAINED := SECOND_LOOK.(tokens := 0.0, admitted := 2)
  const SLEEPING := DRAINED.(sleep := Asleep(2))
  const THIRD_LOOK := Looked(3, 90, 2.0, 52, [80.0], Counted(1), Asleep(3), 132.0, 2)
  const FOURTH_LOOK := Looked(4, 100, 2.0, 52, [80.0], Counted(2), Asleep(4), 184.0, 2)
  const FIFTH_LOOK := Looked(5, 110, 2.0, 52, [80.0], Counted(3), Asleep(5), 236.0, 2)

  /** A probe at 100 bytes per second for four bytes and 200 milliseconds. */
  const PROBE := Counted(0).(active := true, rate := 100, remaining := 4.0, deadline := 5200 * MILLISECOND,
                             entryCapacity := 80.0, entryRTT := 100 * MILLISECOND, window := 10 * MILLISECOND,
                             gap := SECOND)
  const PROBING := FIFTH_LOOK.(probe := PROBE, probeStart := 5 * SECOND)
  const LATER := 5010 * MILLISECOND

  /** One byte of the probe's allowance is left, and the bucket is empty. */
  const LAST := PROBING.(tokens := 0.0, lastRefill := LATER, minted := 237.0, admitted := 5, probeAdmitted := 3,
                         probe := PROBE.(remaining := 1.0))

  lemma FirstLook()
    ensures Apply(START, Look(1, 0)) == FIRST_LOOK
  {
  }

  /** Eighty bytes in a second, not limited by pacing, are the first sample. */
  lemma EightyBytes(c: Controller, s: Snapshot, m: Sample)
    requires c.samples == [] && c.initialRate == 80 && c.minimumRate == 1 && c.maximumRate == 1000
    requires c.profile == Balanced && m == Sample(SECOND, false, 0, 80, 0)
    requires s.minRTT == 10 * MILLISECOND && s.smoothedRTT == 100 * MILLISECOND
    ensures NewSamples(c, m) == [80.0] && NewTarget(c, s, m) == 52
  {
    assert DeliveredRate(m) == 80.0 && LossRatio(m) == 0.0;
    assert Estimate(80.0, [80.0]) == 80.0;
    assert NewSamples(c, m) == [80.0];
    assert Target(SettingsFor(Balanced), 80.0, 0.0, s.minRTT, s.smoothedRTT) == 51.84;
  }

  /** What the look at the first sample comes to. */
  lemma SampleLook(c: Controller)
    requires c == Looked(1, 0, 2.0, 80, [], NO_PROBE, Sleep(0, false, 0, 0, SECOND), 0.0, 0)
    ensures var d := Looked(2, 80, 2.0, 52, [80.0], NO_PROBE, Sleep(0, false, 0, 0, 2 * SECOND), 80.0, 0);
      Apply(c, Look(2, 80)) == ObserveProbe(d, Sent(2, 80), 2 * SECOND, false, false)
  {
    var s, now := Sent(2, 80), 2 * SECOND;
    var r := c.(lastRefill := now, minted := 80.0);
    assert Credit(SECOND, 80) == 80.0;
    assert Refill(c, now) == r;
    assert Interrupted(c, s, now) == r;
    var e, m := Record(r, s, now), Sample(SECOND, false, 0, 80, 0);
    assert Measure(c.sleep, c.previous, s, now) == m;
    EightyBytes(e, s, m);
    var f := e.(samples := [80.0]);
    assert Refill(f, now) == f;
    assert SetTargetRate(f, 52, now) == f.(targetRate := 52);
    assert Learn(e, s, m, now, now) == ObserveProbe(f.(targetRate := 52), s, now, false, false);
    assert Digest(c, s, now, now) == Learn(e, s, m, now, now);
    assert Observe(c, s, Readings(now, now, now, now)) == Digest(c, s, now, now);
  }

  lemma SecondLook()
    ensures Apply(FIRST_LOOK, Look(2, 80)) == SECOND_LOOK
  {
    SampleLook(FIRST_LOOK);
  }

  /** One chunk drains the bucket, the next one sleeps. */
  lemma Drains()
    ensures Apply(SECOND_LOOK, DoAttempt(2, 2 * SECOND, 2 * SECOND)) == DRAINED
    ensures Apply(DRAINED, DoAttempt(2, 2 * SECOND, 2 * SECOND)) == SLEEPING
  {
  }

  /** Ten bytes in a second, limited by pacing, teach nothing new. */
  lemma TenBytes(c: Controller, s: Snapshot, m: Sample)
    requires c.samples == [80.0] && c.initialRate == 80 && c.minimumRate == 1 && c.maximumRate == 1000
    requires c.profile == Balanced && m == Sample(SECOND, true, 0, 10, 0)
    requires s.minRTT == 10 * MILLISECOND && s.smoothedRTT == 100 * MILLISECOND
    ensures NewSamples(c, m) == [80.0] && NewTarget(c, s, m) == 52
  {
    assert DeliveredRate(m) == 10.0 && LossRatio(m) == 0.0;
    assert Estimate(80.0, [80.0]) == 80.0;
    assert NewSamples(c, m) == [80.0];
    assert Target(SettingsFor(Balanced), 80.0, 0.0, s.minRTT, s.smoothedRTT) == 51.84;
  }

  /** What a look a second later comes to, for a controller that went to sleep and has a full bucket by then. */
  lemma NextLook(c: Controller, second: int, bytes: nat)
    requires second >= 2 && c == Looked(second, bytes, c.tokens, 52, [80.0], c.probe, Asleep(second), c.minted, 2)
    requires 0.0 <= c.tokens <= 2.0 && !c.probe.active && !c.probe.pending && c.probe.eligibleSamples in {0, 1, 2}
    requires c.probe.eligibleSamples > 0 ==> c.probe.eligibleRTT == 100 * MILLISECOND
    ensures var d := Looked(second + 1, bytes + 10, 2.0, 52, [80.0], c.probe, Asleep(second + 1), c.minted + 52.0, 2);
      Apply(c, Look(second + 1, bytes + 10)) ==
      ObserveProbe(d, Sent(second + 1, bytes + 10), (second + 1) * SECOND, true, false)
  {
    var s, now := Sent(second + 1, bytes + 10), (second + 1) * SECOND;
    var r := c.(tokens := 2.0, lastRefill := now, minted := c.minted + 52.0);
    assert Credit(SECOND, 52) == 52.0;
    assert Refill(c, now) == r;
    assert Interrupted(c, s, now) == r;
    var e, m := Record(r, s, now), Sample(SECOND, true, 0, 10, 0);
    assert Measure(c.sleep, c.previous, s, now) == m;
    TenBytes(e, s, m);
    assert Refill(e, now) == e;
    assert Learn(e, s, m, now, now) == ObserveProbe(e, s, now, true, false);
    assert Digest(c, s, now, now) == Learn(e, s, m, now, now);
  }

  lemma ThirdLook()
    ensures Apply(SLEEPING, Look(3, 90)) == THIRD_LOOK
  {
    NextLook(SLEEPING, 2, 80);
  }

  lemma FourthLook()
    ensures Apply(THIRD_LOOK, Look(4, 100)) == FOURTH_LOOK
  {
    NextLook(THIRD_LOOK, 3, 90);
  }

  lemma PlanIsMade(s: Snapshot)
    requires s.minRTT == 10 * MILLISECOND && s.smoothedRTT == 100 * MILLISECOND
    ensures MakePlan(PlanInput(Balanced, 1000, 52, 2), s, 80.0)
         == Plan(100, 4, 200 * MILLISECOND, SECOND, 10 * MILLISECOND)
  {
    var input := PlanInput(Balanced, 1000, 52, 2);
    assert ProbeRate(input, 80.0) == 100;
    assert ProbeBudget(input, 100, 10 * MILLISECOND) == 4;
    assert DurationForBytes(4.0, 100) == 40 * MILLISECOND;
  }

  /** The third eligible sample starts a probe. */
  lemma FifthLook()
    ensures Apply(FOURTH_LOOK, Look(5, 110)) == PROBING
  {
    NextLook(FOURTH_LOOK, 4, 100);
    PlanIsMade(Sent(5, 110));
    assert CountEligible(Counted(2), 100 * MILLISECOND, 5 * SECOND) == Counted(3);
    assert Estimate(80.0, [80.0]) == 80.0;
  }

  const HALFWAY := PROBING.(tokens := 0.0, admitted := 4, probeAdmitted := 2, probe := PROBE.(remaining := 2.0))

  /** Two calls take three of the four bytes. */
  lemma TakesThree()
    ensures Apply(PROBING, DoAttempt(2, 5 * SECOND, 5 * SECOND)) == HALFWAY
    ensures Apply(HALFWAY, DoAttempt(1, LATER, LATER)) == LAST
  {
  }

  lemma LastIsReachable()
    ensures Reachable(LAST, LATER)
  {
    NewIsReachable(CONFIG, SECOND);
    FirstLook();
    ReachableOneMore(START, SECOND, Look(1, 0));
    SecondLook();
    ReachableOneMore(FIRST_LOOK, SECOND, Look(2, 80));
    Drains();
    ReachableOneMore(SECOND_LOOK, 2 * SECOND, DoAttempt(2, 2 * SECOND, 2 * SECOND));
    ReachableOneMore(DRAINED, 2 * SECOND, DoAttempt(2, 2 * SECOND, 2 * SECOND));
    ThirdLook();
    ReachableOneMore(SLEEPING, 2 * SECOND, Look(3, 90));
    FourthLook();
    ReachableOneMore(THIRD_LOOK, 3 * SECOND, Look(4, 100));
    FifthLook();
    ReachableOneMore(FOURTH_LOOK, 4 * SECOND, Look(5, 110));
    TakesThree();
    ReachableOneMore(PROBING, 5 * SECOND, DoAttempt(2, 5 * SECOND, 5 * SECOND));
    ReachableOneMore(HALFWAY, 5 * SECOND, DoAttempt(1, LATER, LATER));
  }

  /** Now a call for two bytes ends the probe, finds no tokens and is cancelled: ten milliseconds later the bucket holds
      about half of what it would hold without the call. */
  lemma FailedCallCanCost()
    ensures Reachable(LAST, LATER) && !Spares(LAST, 2)
    ensures var d, end := Attempt(LAST, 2, LATER, LATER), LATER + 10 * MILLISECOND;
      d.admitted == LAST.admitted && Refill(d, end).tokens == 0.52 && Refill(LAST, end).tokens == 1.0
  {
    LastIsReachable();
  }
}