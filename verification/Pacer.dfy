/**
 * The token-bucket controller of internal/accel/pacer.go with the capacity probe of
 * internal/accel/capacity_probe.go.
 *
 * Times and durations are integer nanoseconds, floats are reals.  Every critical section gets the
 * clock readings it makes, in order; the zero time of Go is 0.  The fields from `minted` on are
 * history: they record what happened and never influence a decision.
 */
module Pacer {
  import opened Basics
  import opened Estimator

  const SECOND: int := 1_000_000_000
  const MILLISECOND: int := 1_000_000
  const MINIMUM_SAMPLE_WINDOW: int := 10 * MILLISECOND
  const MAXIMUM_SAMPLE_WINDOW: int := 250 * MILLISECOND
  const MAXIMUM_PROBE_BYTES: int := 1048576
  const MAXIMUM_PROBE_DURATION: int := 2 * SECOND
  const MINIMUM_PROBE_GAP: int := SECOND
  const MAXIMUM_PROBE_BACKOFF: int := 16 * SECOND
  const MAX_EXACT: int := 0x10_0000_0000_0000
  const MAX_INT64: int := 0x7fff_ffff_ffff_ffff

  datatype Mode = Adaptive | Reno | FixedRate

  datatype Snapshot = Snapshot(at: int, sent: nat, lost: nat, minRTT: int, smoothedRTT: int, idle: int)

  datatype Probe = Probe(
    active: bool, rate: int, remaining: real, deadline: int,
    entryCapacity: real, entryRTT: int, window: int, gap: int,
    pending: bool, outcomeDeadline: int, backoff: int, nextAt: int,
    eligibleSamples: int, eligibleSince: int, eligibleRTT: int)

  const NO_PROBE := Probe(false, 0, 0.0, 0, 0.0, 0, 0, 0, false, 0, 0, 0, 0, 0, 0)

  /** A finished probe: when it ran, at which rate, and how many bytes it admitted. */
  datatype Excursion = Excursion(start: int, end: int, rate: int, admitted: int)

  datatype Sleep = Sleep(started: int, sleeping: bool, total: int, previousTotal: int, previousObservation: int)

  datatype Controller = Controller(
    mode: Mode, profile: Profile,
    initialRate: int, minimumRate: int, maximumRate: int, targetRate: int,
    burst: int, tokens: real, lastRefill: int,
    haveSnapshot: bool, previous: Snapshot, samples: seq<real>,
    probe: Probe, sleep: Sleep,
    minted: real, admitted: int, refunded: int,
    probeStart: int, probeAdmitted: int, excursions: seq<Excursion>)

  /** A configuration after defaults; Normalized is what normalizeConfig lets through. */
  datatype Config = Config(
    mode: Mode, profile: Profile, initial: int, minimum: int, maximum: int, fixed: int, burst: int)

  /** validatePositive: larger values lose exactness as floats. */
  predicate InRange(v: int) { 0 < v <= MAX_EXACT }

  predicate Normalized(k: Config) {
    && InRange(k.initial) && InRange(k.minimum) && InRange(k.maximum) && InRange(k.burst)
    && k.minimum <= k.initial <= k.maximum && (k.mode == FixedRate ==> InRange(k.fixed))
  }

  function OrDefault(v: int, default: int): int { if v == 0 then default else v }

  /** Zero values select the documented defaults; a fixed rate is always explicit. */
  function WithDefaults(k: Config): Config {
    k.(initial := OrDefault(k.initial, 8_000_000), minimum := OrDefault(k.minimum, 64 * 1024),
       maximum := OrDefault(k.maximum, 1024 * 1024 * 1024), burst := OrDefault(k.burst, 64 * 1024))
  }

  function New(k: Config, now: int): Controller {
    var target := match k.mode case Adaptive => k.initial case FixedRate => k.fixed case Reno => 0;
    Controller(k.mode, k.profile, k.initial, k.minimum, k.maximum, target, k.burst, k.burst as real, now,
               false, Snapshot(0, 0, 0, 0, 0, 0), [], NO_PROBE, Sleep(0, false, 0, 0, 0),
               0.0, 0, 0, 0, 0, [])
  }

  // ---- pure helpers ----

  /** Tokens earned in `elapsed` nanoseconds at `rate` bytes per second. */
  function Credit(elapsed: int, rate: int): real { elapsed as real * rate as real / 1_000_000_000.0 }

  function StableSampleWindow(minimumRTT: int): int {
    var window := if minimumRTT >= 0 then minimumRTT / 4 else -(-minimumRTT / 4);
    if window < MINIMUM_SAMPLE_WINDOW then MINIMUM_SAMPLE_WINDOW
    else if window > MAXIMUM_SAMPLE_WINDOW then MAXIMUM_SAMPLE_WINDOW
    else window
  }

  function DurationForBytes(amount: real, rate: int): int
    requires rate > 0
  {
    var nanoseconds := Ceil(amount / rate as real * 1_000_000_000.0);
    if nanoseconds > MAX_INT64 then MAX_INT64 else if nanoseconds < 1 then 1 else nanoseconds
  }

  function PacingRate(c: Controller): int { if c.probe.active then c.probe.rate else c.targetRate }

  // ---- refill ----

  function RefillAtRate(c: Controller, now: int, rate: int): Controller {
    if now - c.lastRefill <= 0 then c
    else c.(tokens := MinReal(c.burst as real, c.tokens + Credit(now - c.lastRefill, rate)), lastRefill := now)
  }

  function Finish(c: Controller, now: int): Controller {
    c.(probe := c.probe.(active := false, pending := true,
                         outcomeDeadline := now + Max(250 * MILLISECOND, 2 * c.probe.window), eligibleSamples := 0),
       excursions := c.excursions + [Excursion(c.probeStart, now, c.probe.rate, c.probeAdmitted)])
  }

  function Ended(c: Controller, now: int): seq<Excursion> {
    if c.probe.active then c.excursions + [Excursion(c.probeStart, now, c.probe.rate, c.probeAdmitted)]
    else c.excursions
  }

  function Resolve(c: Controller, now: int, success: bool): Controller {
    var backoff := if success then 0 else Min(MAXIMUM_PROBE_BACKOFF, Max(2 * MINIMUM_PROBE_GAP, 2 * c.probe.backoff));
    c.(probe := c.probe.(active := false, pending := false, eligibleSamples := 0, backoff := backoff,
                         nextAt := now + Max(c.probe.gap, backoff)),
       excursions := Ended(c, now))
  }

  function Abort(c: Controller, now: int): Controller {
    var d := if c.probe.active || c.probe.pending then Resolve(c, now, false) else c;
    d.(probe := d.probe.(eligibleSamples := 0))
  }

  /** The rate in force at instant `t` if nothing intervenes: a probe is over at its deadline. */
  function RateAt(c: Controller, t: int): int {
    if c.probe.active && t < c.probe.deadline then c.probe.rate else c.targetRate
  }

  /** The integral of RateAt over [t0, t1). */
  function RateIntegral(c: Controller, t0: int, t1: int): real {
    if t1 <= t0 then 0.0
    else if !c.probe.active || c.probe.deadline <= t0 then Credit(t1 - t0, c.targetRate)
    else if t1 <= c.probe.deadline then Credit(t1 - t0, c.probe.rate)
    else Credit(c.probe.deadline - t0, c.probe.rate) + Credit(t1 - c.probe.deadline, c.targetRate)
  }

  function ExpireProbe(c: Controller, now: int): Controller {
    if c.probe.active && now >= c.probe.deadline
    then Finish(RefillAtRate(c, c.probe.deadline, c.probe.rate), c.probe.deadline) else c
  }

  function ExpireOutcome(c: Controller, now: int): Controller {
    if c.probe.pending && now >= c.probe.outcomeDeadline then Resolve(c, now, false) else c
  }

  function Refill(c: Controller, now: int): Controller {
    var d := ExpireProbe(c, now);
    ExpireOutcome(RefillAtRate(d, now, PacingRate(d)), now)
      .(minted := c.minted + RateIntegral(c, c.lastRefill, now))
  }

  function SetTargetRate(c: Controller, rate: int, now: int): Controller {
    Refill(c, now).(targetRate := rate)
  }

  function ResetProbe(c: Controller, now: int): Controller {
    var d := Refill(c, now);
    d.(probe := NO_PROBE, excursions := Ended(d, now))
  }

  // ---- one pass of admit, refund ----

  datatype Verdict = Granted | Wait(delay: int)

  /** The probe allowance is never charged for part of a chunk. */
  function YieldProbe(c: Controller, amount: int, now: int): Controller {
    if c.probe.active && amount as real > c.probe.remaining then Finish(c, now) else c
  }

  function Charge(c: Controller, amount: int, now: int): Controller {
    var d := c.(tokens := c.tokens - amount as real, admitted := c.admitted + amount);
    if !c.probe.active then d
    else
      var e := d.(probe := d.probe.(remaining := d.probe.remaining - amount as real),
                  probeAdmitted := d.probeAdmitted + amount);
      if e.probe.remaining == 0.0 then Finish(e, now) else e
  }

  function DelayFor(c: Controller, amount: int, now: int): int
    requires PacingRate(c) > 0
  {
    var delay := DurationForBytes(amount as real - c.tokens, PacingRate(c));
    if c.probe.active then Min(delay, c.probe.deadline - now) else delay
  }

  /** The part of a pass after the refill; `asleep` is read when the caller is about to sleep. */
  function Spend(c: Controller, amount: int, now: int, asleep: int): Controller {
    if c.tokens >= amount as real then Charge(c, amount, now)
    else if c.mode == Adaptive then c.(sleep := c.sleep.(started := asleep, sleeping := true))
    else c
  }

  /** `now` is read on entry. */
  function Attempt(c: Controller, amount: int, now: int, asleep: int): Controller {
    Spend(YieldProbe(Refill(c, now), amount, now), amount, now, asleep)
  }

  /** Whether this pass admits the chunk. */
  predicate Grants(c: Controller, amount: int, now: int) {
    YieldProbe(Refill(c, now), amount, now).tokens >= amount as real
  }

  function PacingTime(s: Sleep, now: int): int {
    if s.sleeping && now > s.started then s.total + (now - s.started) else s.total
  }

  function Wake(c: Controller, now: int): Controller {
    if c.mode == Adaptive
    then c.(sleep := c.sleep.(total := PacingTime(c.sleep, now), started := 0, sleeping := false)) else c
  }

  function GiveBack(c: Controller, amount: int): Controller {
    c.(tokens := MinReal(c.burst as real, c.tokens + amount as real), refunded := c.refunded + amount)
  }

  function Refund(c: Controller, amount: int, now: int): Controller {
    if amount == 0 then c else GiveBack(Refill(c, now), amount)
  }

  // ---- Observe ----

  function Record(c: Controller, s: Snapshot, now: int): Controller {
    c.(previous := s,
       sleep := c.sleep.(previousObservation := now, previousTotal := PacingTime(c.sleep, now)))
  }

  function RttRose(p: Probe, rtt: int): bool {
    if p.active || p.pending then Grew(rtt, p.entryRTT)
    else p.eligibleSamples > 0 && Grew(rtt, p.eligibleRTT)
  }

  function Grew(rtt: int, baseline: int): bool {
    rtt > baseline && rtt - baseline > Max(MILLISECOND, if baseline >= 0 then baseline / 4 else -(-baseline / 4))
  }

  function Round(x: real): int { (x + 0.5).Floor }

  datatype Sample = Sample(elapsed: int, limited: bool, idleDelta: int, sentDelta: int, lostDelta: int)

  function Measure(z: Sleep, previous: Snapshot, s: Snapshot, now: int): Sample {
    var observed := now - z.previousObservation;
    var paced := PacingTime(z, now) - z.previousTotal;
    Sample(s.at - previous.at,
           observed > 0 && paced > 0 && paced >= observed / 2,
           s.idle - previous.idle,
           s.sent - previous.sent,
           if s.lost >= previous.lost then s.lost - previous.lost else 0)
  }

  function Clamp(low: int, high: int, target: real): (rate: int)
    ensures low <= rate && (low <= high ==> rate <= high)
  {
    Round(MaxReal(low as real, MinReal(high as real, target)))
  }

  function LostBytes(m: Sample): int { Min(m.lostDelta, m.sentDelta) }

  function DeliveredRate(m: Sample): real
    requires m.elapsed > 0
  {
    (m.sentDelta - LostBytes(m)) as real / (m.elapsed as real / 1_000_000_000.0)
  }

  function LossRatio(m: Sample): real
    requires m.sentDelta > 0
  {
    LostBytes(m) as real / m.sentDelta as real
  }

  function NewSamples(c: Controller, m: Sample): seq<real>
    requires m.elapsed > 0
  {
    Accept(c.initialRate as real, c.samples, DeliveredRate(m), m.limited)
  }

  function NewTarget(c: Controller, s: Snapshot, m: Sample): (rate: int)
    requires m.sentDelta > 0 && m.elapsed > 0 && s.minRTT > 0 && s.smoothedRTT > 0
    ensures c.minimumRate <= rate && (c.minimumRate <= c.maximumRate ==> rate <= c.maximumRate)
  {
    var bottleneck := Estimate(c.initialRate as real, NewSamples(c, m));
    Clamp(c.minimumRate, c.maximumRate,
          Target(SettingsFor(c.profile), bottleneck, LossRatio(m), s.minRTT, s.smoothedRTT))
  }

  /** A complete delivery sample moves the target and may start or end a probe. */
  function Learn(c: Controller, s: Snapshot, m: Sample, now: int, later: int): Controller
    requires m.sentDelta > 0 && m.elapsed > 0 && s.minRTT > 0 && s.smoothedRTT > 0
  {
    Adopt(c, s, NewSamples(c, m), NewTarget(c, s, m), now, later, m.limited, LostBytes(m) != 0)
  }

  function Adopt(c: Controller, s: Snapshot, samples: seq<real>, target: int, now: int, later: int,
                 limited: bool, loss: bool): Controller {
    ObserveProbe(SetTargetRate(c.(samples := samples), target, later), s, now, limited, loss)
  }

  /** Loss or a growing queue ends an excursion, whether or not the observation is a full sample. */
  function Interrupted(c: Controller, s: Snapshot, now: int): Controller {
    var d := Refill(c, now);
    if s.lost > c.previous.lost || RttRose(d.probe, s.smoothedRTT) then Abort(d, now) else d
  }

  /** What a complete sample means: nothing new after idling or without traffic, else something to learn. */
  function Settle(c: Controller, s: Snapshot, m: Sample, now: int, later: int): Controller
    requires m.sentDelta >= 0 && m.elapsed > 0 && s.minRTT >= 0 && s.smoothedRTT >= 0
  {
    if m.idleDelta >= StableSampleWindow(s.minRTT) && m.idleDelta >= m.elapsed / 2 then Abort(c, now)
    else if m.sentDelta == 0 || s.minRTT == 0 || s.smoothedRTT == 0 then Abort(c, now)
    else Learn(c, s, m, now, later)
  }

  function Digest(c: Controller, s: Snapshot, now: int, later: int): Controller
    requires s.at > c.previous.at && s.sent >= c.previous.sent && s.minRTT >= 0 && s.smoothedRTT >= 0
  {
    var d := Interrupted(c, s, now);
    var m := Measure(d.sleep, c.previous, s, now);
    if m.elapsed < StableSampleWindow(s.minRTT) then d else Settle(Record(d, s, now), s, m, now, later)
  }

  function NewEpoch(c: Controller, s: Snapshot, t1: int, t2: int, t3: int): Controller {
    SetTargetRate(ResetProbe(Record(c, s, t1).(samples := []), t2), c.initialRate, t3)
  }

  function Stamped(s: Snapshot, t0: int): Snapshot { if s.at == 0 then s.(at := t0) else s }

  /** The clock may be read up to four times, in this order. */
  datatype Readings = Readings(t0: int, t1: int, t2: int, t3: int)

  predicate Rejected(c: Controller, given: Snapshot, t: Readings) {
    c.mode == Adaptive &&
    (given.minRTT < 0 || given.smoothedRTT < 0 || given.idle < 0
     || (c.haveSnapshot && Stamped(given, t.t0).at <= c.previous.at))
  }

  function Observe(c: Controller, given: Snapshot, t: Readings): Controller {
    var s := Stamped(given, t.t0);
    if c.mode != Adaptive || Rejected(c, given, t) then c
    else if !c.haveSnapshot then Record(c, s, t.t1).(haveSnapshot := true)
    else if s.sent < c.previous.sent || s.idle < c.previous.idle then NewEpoch(c, s, t.t1, t.t2, t.t3)
    else Digest(c, s, t.t1, t.t2)
  }

  // ---- the probe's life ----

  function Judge(c: Controller, s: Snapshot, now: int, limited: bool, loss: bool): Controller {
    if loss || RttRose(c.probe, s.smoothedRTT) then Abort(c, now)
    else if Estimate(c.initialRate as real, c.samples) > c.probe.entryCapacity * 1.02 then Resolve(c, now, true)
    else if !limited then Abort(c, now)
    else c
  }

  function CountEligible(p: Probe, rtt: int, now: int): Probe {
    var q := if RttRose(p, rtt) then p.(eligibleSamples := 0) else p;
    var r := if q.eligibleSamples == 0 then q.(eligibleSince := now, eligibleRTT := rtt) else q;
    if r.eligibleSamples < 3 then r.(eligibleSamples := r.eligibleSamples + 1) else r
  }

  datatype Plan = NoPlan | Plan(rate: int, budget: int, duration: int, gap: int, window: int)

  function ProbeGain(p: Profile): real { if p == Aggressive then 1.50 else 1.25 }

  /** What a plan depends on besides the snapshot and the capacity estimate. */
  datatype PlanInput = PlanInput(profile: Profile, maximumRate: int, targetRate: int, burst: int)

  function ProbeRate(c: PlanInput, capacity: real): int {
    MinReal(c.maximumRate as real, MinReal(capacity * ProbeGain(c.profile), 2.0 * c.targetRate as real)).Floor
  }

  function ProbeBudget(c: PlanInput, rate: int, window: int): (budget: int)
    ensures budget >= 2 * c.burst
  {
    Ceil(MaxReal(2.0 * c.burst as real, 2.0 * rate as real * (window as real / 1_000_000_000.0)))
  }

  /** The rest of a plan, once its rate and its budget are known. */
  function Scheduled(s: Snapshot, rate: int, budget: int): (plan: Plan)
    requires rate > 0
    ensures plan.Plan? ==>
      && plan.rate == rate && plan.budget == budget <= MAXIMUM_PROBE_BYTES
      && 0 < plan.duration <= MAXIMUM_PROBE_DURATION && plan.gap >= MINIMUM_PROBE_GAP
  {
    if budget > MAXIMUM_PROBE_BYTES then NoPlan
    else
      var window := StableSampleWindow(s.minRTT);
      var service := DurationForBytes(budget as real, rate);
      if service > MAXIMUM_PROBE_DURATION - window then NoPlan
      else
        var duration := Max(Max(100 * MILLISECOND, service + window),
                            2 * Min(s.smoothedRTT, MAXIMUM_PROBE_DURATION / 2));
        var gap := Max(MINIMUM_PROBE_GAP, 8 * Min(s.smoothedRTT, MAXIMUM_PROBE_BACKOFF / 8));
        Plan(rate, budget, duration, gap, window)
  }

  function MakePlan(c: PlanInput, s: Snapshot, capacity: real): (plan: Plan)
    ensures plan.Plan? ==>
      && c.targetRate < plan.rate <= c.maximumRate && 0 < plan.rate
      && plan.budget <= MAXIMUM_PROBE_BYTES && 2 * c.burst <= plan.budget
      && 0 < plan.duration <= MAXIMUM_PROBE_DURATION && plan.gap >= MINIMUM_PROBE_GAP
  {
    var rate := ProbeRate(c, capacity);
    if rate as real <= capacity || rate <= c.targetRate || rate <= 0 then NoPlan // a target is never negative
    else Scheduled(s, rate, ProbeBudget(c, rate, StableSampleWindow(s.minRTT)))
  }

  function StartProbe(c: Controller, s: Snapshot, plan: Plan, capacity: real, now: int): Controller
    requires plan.Plan?
  {
    c.(probe := c.probe.(active := true, rate := plan.rate, remaining := plan.budget as real,
                         deadline := now + plan.duration, entryCapacity := capacity, entryRTT := s.smoothedRTT,
                         window := plan.window, gap := plan.gap, eligibleSamples := 0),
       probeStart := now, probeAdmitted := 0)
  }

  function ObserveProbe(c: Controller, s: Snapshot, now: int, limited: bool, loss: bool): Controller {
    var capacity := Estimate(c.initialRate as real, c.samples);
    if c.profile == Conservative then c
    else if c.probe.active || c.probe.pending then Judge(c, s, now, limited, loss)
    else if loss || !limited || c.samples == [] || c.targetRate as real >= capacity * 0.95
    then c.(probe := c.probe.(eligibleSamples := 0))
    else
      Consider(c.(probe := CountEligible(c.probe, s.smoothedRTT, now)), s, capacity, now)
  }

  /** Start a probe once enough eligible samples, a second of them, and the back-off allow it. */
  function Consider(c: Controller, s: Snapshot, capacity: real, now: int): Controller {
    if c.probe.eligibleSamples < 3 || now - c.probe.eligibleSince < SECOND || now < c.probe.nextAt then c
    else
      var plan := MakePlan(PlanInput(c.profile, c.maximumRate, c.targetRate, c.burst), s, capacity);
      if plan == NoPlan then c else StartProbe(c, s, plan, capacity, now)
  }

  // ---- runs ----

  /** One critical section with the clock readings it makes. */
  datatype Event =
    | DoAttempt(amount: int, now: int, asleep: int)
    | DoWake(now: int)
    | DoRefund(amount: int, now: int)
    | DoObserve(snapshot: Snapshot, t: Readings)
    | DoSetRate(rate: int, now: int)

  predicate Enabled(c: Controller, clock: int, e: Event) {
    match e
    case DoAttempt(amount, now, asleep) => c.mode != Reno && 0 < amount <= c.burst && clock <= now <= asleep
    case DoWake(now) => clock <= now
    case DoRefund(amount, now) => amount >= 0 && clock <= now
    case DoObserve(_, t) => clock <= t.t1 <= t.t2 <= t.t3
    case DoSetRate(rate, now) => c.mode == FixedRate && InRange(rate) && clock <= now
  }

  function ClockAfter(e: Event): int {
    match e
    case DoAttempt(_, _, asleep) => asleep
    case DoWake(now) => now
    case DoRefund(_, now) => now
    case DoObserve(_, t) => t.t3
    case DoSetRate(_, now) => now
  }

  function Apply(c: Controller, e: Event): Controller {
    match e
    case DoAttempt(amount, now, asleep) => Attempt(c, amount, now, asleep)
    case DoWake(now) => Wake(c, now)
    case DoRefund(amount, now) => Refund(c, amount, now)
    case DoObserve(s, t) => Observe(c, s, t)
    case DoSetRate(rate, now) => SetTargetRate(c, rate, now)
  }

  ghost predicate Run(c: Controller, clock: int, events: seq<Event>, d: Controller)
    decreases |events|
  {
    if events == [] then d == c
    else Enabled(c, clock, events[0]) && Run(Apply(c, events[0]), ClockAfter(events[0]), events[1..], d)
  }
}
