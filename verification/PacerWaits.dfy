/**
 * Concurrent calls of Wait on one controller: chunks, the admission token, cancellation and refunds of
 * internal/accel/pacer.go, interleaved with observations and changes of the fixed rate.
 */
module PacerWaits {
  import opened Basics
  import opened Pacer
  import opened PacerProofs

  datatype Status = Running | Finished | Cancelled

  /** One call of Wait for `size` bytes, of which `taken` are admitted. */
  datatype Call = Call(size: int, taken: int, status: Status)

  /** Who has the admission token, and whether it sleeps for capacity. */
  datatype Token = Free | Held(call: nat, asleep: bool)

  datatype Shared = Shared(controller: Controller, clock: int, calls: seq<Call>, token: Token)

  datatype Step =
    | Begin(size: int)
    | Acquire(call: nat)
    | Pass(call: nat, now: int, asleep: int)    // one pass of the loop in admit
    | Rouse(call: nat, now: int)                // the section after the sleep
    | Cancel(call: nat, now: int)               // the context ends; what was admitted is given back
    | Elsewhere(event: Event)                   // Observe or SetFixedRate

  function Chunk(c: Call, burst: int): int { Min(c.size - c.taken, burst) }

  predicate IsRunning(s: Shared, w: nat) { w < |s.calls| && s.calls[w].status == Running }

  predicate Enabled(s: Shared, step: Step) {
    match step
    case Begin(_) => true
    case Acquire(w) => IsRunning(s, w) && s.token == Free
    case Pass(w, now, asleep) => IsRunning(s, w) && s.token == Held(w, false) && s.clock <= now <= asleep
    case Rouse(w, now) => s.token == Held(w, true) && s.clock <= now
    case Cancel(w, now) => IsRunning(s, w) && s.token != Held(w, true) && s.clock <= now
    case Elsewhere(e) => (e.DoObserve? || e.DoSetRate?) && Pacer.Enabled(s.controller, s.clock, e)
  }

  /** Nothing to pace: the call returns at once, refused if the size is negative. */
  function Opened(c: Controller, size: int): Call {
    if size < 0 then Call(size, 0, Cancelled)
    else if size == 0 || c.mode == Reno then Call(size, 0, Finished)
    else Call(size, 0, Running)
  }

  function Took(c: Call, amount: int): Call {
    Call(c.size, c.taken + amount, if c.taken + amount == c.size then Finished else Running)
  }

  /** The locked section a step runs on the controller, if any. */
  function EventOf(s: Shared, step: Step): Option<Event>
    requires Enabled(s, step)
  {
    match step
    case Begin(_) => None
    case Acquire(_) => None
    case Pass(w, now, asleep) => Some(DoAttempt(Chunk(s.calls[w], s.controller.burst), now, asleep))
    case Rouse(_, now) => Some(DoWake(now))
    case Cancel(w, now) => Some(DoRefund(s.calls[w].taken, now))
    case Elsewhere(e) => Some(e)
  }

  /** What a step does to the calls and the token. */
  function Calls(s: Shared, step: Step): (seq<Call>, Token)
    requires Enabled(s, step)
  {
    match step
    case Begin(size) => (s.calls + [Opened(s.controller, size)], s.token)
    case Acquire(w) => (s.calls, Held(w, false))
    case Pass(w, now, _) =>
      var amount := Chunk(s.calls[w], s.controller.burst);
      if Grants(s.controller, amount, now) then (s.calls[w := Took(s.calls[w], amount)], Free)
      else (s.calls, Held(w, true))
    case Rouse(w, _) => (s.calls, Held(w, false))
    case Cancel(w, _) =>
      (s.calls[w := s.calls[w].(status := Cancelled)], if s.token == Held(w, false) then Free else s.token)
    case Elsewhere(_) => (s.calls, s.token)
  }

  function Apply(s: Shared, step: Step): Shared
    requires Enabled(s, step)
  {
    var (calls, token) := Calls(s, step);
    match EventOf(s, step)
    case None => s.(calls := calls, token := token)
    case Some(e) => Shared(Pacer.Apply(s.controller, e), ClockAfter(e), calls, token)
  }

  ghost predicate Reaches(from: Shared, steps: seq<Step>, s: Shared)
    decreases |steps|
  {
    if steps == [] then s == from
    else Enabled(from, steps[0]) && Reaches(Apply(from, steps[0]), steps[1..], s)
  }

  function Init(k: Config, now: int): Shared { Shared(New(k, now), now, [], Free) }

  ghost predicate ReachableWaits(s: Shared) {
    exists k: Config, now: int, steps :: Normalized(k) && Reaches(Init(k, now), steps, s)
  }

  // ---- the books ----

  function Weight(c: Call, cancelledOnly: bool): int { if cancelledOnly && c.status != Cancelled then 0 else c.taken }

  /** What all calls, or the cancelled ones, have taken. */
  function TakenBy(calls: seq<Call>, cancelledOnly: bool): int {
    if calls == [] then 0
    else TakenBy(calls[..|calls| - 1], cancelledOnly) + Weight(calls[|calls| - 1], cancelledOnly)
  }

  predicate CallOk(mode: Mode, c: Call) {
    && 0 <= c.taken <= Max(c.size, 0)
    && (c.status == Running ==> c.taken < c.size && mode != Reno)
    && (c.status == Finished ==> c.taken == if mode == Reno then 0 else c.size)
  }

  /** What the controller's books say of the calls. */
  ghost predicate BooksOk(s: Shared) {
    s.controller.admitted == TakenBy(s.calls, false) && s.controller.refunded == TakenBy(s.calls, true)
  }

  predicate CallsOk(mode: Mode, calls: seq<Call>) { forall i :: 0 <= i < |calls| ==> CallOk(mode, calls[i]) }

  ghost predicate Inv(s: Shared) {
    BooksOk(s) && CallsOk(s.controller.mode, s.calls) && Reachable(s.controller, s.clock)
  }

  lemma TakenAppend(calls: seq<Call>, c: Call, cancelledOnly: bool)
    ensures TakenBy(calls + [c], cancelledOnly) == TakenBy(calls, cancelledOnly) + Weight(c, cancelledOnly)
  {
    assert (calls + [c])[..|calls|] == calls;
  }

  lemma {:induction false} TakenUpdate(calls: seq<Call>, w: nat, c: Call, cancelledOnly: bool)
    requires w < |calls|
    ensures TakenBy(calls[w := c], cancelledOnly) ==
            TakenBy(calls, cancelledOnly) - Weight(calls[w], cancelledOnly) + Weight(c, cancelledOnly)
  {
    var n := |calls| - 1;
    if w == n {
      assert calls[w := c][..n] == calls[..n];
    } else {
      TakenUpdate(calls[..n], w, c, cancelledOnly);
      assert calls[w := c][..n] == calls[..n][w := c];
    }
  }

  lemma {:induction false} TakenBounds(mode: Mode, calls: seq<Call>)
    requires CallsOk(mode, calls)
    ensures 0 <= TakenBy(calls, true) <= TakenBy(calls, false)
  {
    if calls == [] {
    } else {
      assert CallOk(mode, calls[|calls| - 1]);
      TakenBounds(mode, calls[..|calls| - 1]);
    }
  }

  /** Nothing is admitted or refunded. */
  ghost predicate SameBooks(c: Controller, d: Controller) {
    d.admitted == c.admitted && d.refunded == c.refunded && d.mode == c.mode
  }

  lemma RefillBooks(c: Controller, now: int)
    ensures SameBooks(c, Refill(c, now))
  {
  }

  lemma AbortBooks(c: Controller, now: int)
    ensures SameBooks(c, Abort(c, now))
  {
  }

  lemma ObserveProbeBooks(c: Controller, s: Snapshot, now: int, limited: bool, loss: bool)
    ensures SameBooks(c, ObserveProbe(c, s, now, limited, loss))
  {
    AbortBooks(c, now);
  }

  lemma AdoptBooks(c: Controller, s: Snapshot, samples: seq<real>, target: int, now: int, later: int,
                   limited: bool, loss: bool)
    ensures SameBooks(c, Adopt(c, s, samples, target, now, later, limited, loss))
  {
    var d := c.(samples := samples);
    RefillBooks(d, later);
    ObserveProbeBooks(SetTargetRate(d, target, later), s, now, limited, loss);
  }

  lemma InterruptedBooks(c: Controller, s: Snapshot, now: int)
    ensures SameBooks(c, Interrupted(c, s, now))
  {
    RefillBooks(c, now);
    AbortBooks(Refill(c, now), now);
  }

  lemma DigestBooks(c: Controller, s: Snapshot, now: int, later: int)
    requires s.at > c.previous.at && s.sent >= c.previous.sent && s.minRTT >= 0 && s.smoothedRTT >= 0
    ensures SameBooks(c, Digest(c, s, now, later))
  {
    InterruptedBooks(c, s, now);
    var d := Interrupted(c, s, now);
    var e := Record(d, s, now);
    AbortBooks(e, now);
    var m := Measure(d.sleep, c.previous, s, now);
    if m.sentDelta > 0 && m.elapsed > 0 && s.minRTT > 0 && s.smoothedRTT > 0 {
      AdoptBooks(e, s, NewSamples(e, m), NewTarget(e, s, m), now, later, m.limited, LostBytes(m) != 0);
    }
    DigestIsOneOf(c, s, now, later);
  }

  lemma NewEpochBooks(c: Controller, s: Snapshot, t1: int, t2: int, t3: int)
    ensures SameBooks(c, NewEpoch(c, s, t1, t2, t3))
  {
    var d := Record(c, s, t1).(samples := []);
    RefillBooks(d, t2);
    RefillBooks(ResetProbe(d, t2), t3);
  }

  lemma ObserveBooks(c: Controller, given: Snapshot, t: Readings)
    ensures SameBooks(c, Observe(c, given, t))
  {
    var s := Stamped(given, t.t0);
    if c.mode == Adaptive && !Rejected(c, given, t) && c.haveSnapshot {
      if s.sent < c.previous.sent || s.idle < c.previous.idle {
        NewEpochBooks(c, s, t.t1, t.t2, t.t3);
      } else {
        DigestBooks(c, s, t.t1, t.t2);
      }
    }
  }

  /** What one pass of admit does to the two counters. */
  lemma AttemptBooks(c: Controller, amount: int, now: int, asleep: int)
    ensures var d := Attempt(c, amount, now, asleep);
            d.admitted == c.admitted + (if Grants(c, amount, now) then amount else 0) && d.refunded == c.refunded
    ensures Attempt(c, amount, now, asleep).mode == c.mode
  {
    RefillBooks(c, now);
    ChargeBooks(YieldProbe(Refill(c, now), amount, now), amount, now);
  }

  lemma ChargeBooks(c: Controller, amount: int, now: int)
    ensures var d := Charge(c, amount, now);
            d.admitted == c.admitted + amount && d.refunded == c.refunded && d.mode == c.mode
  {
  }

  lemma RefundBooks(c: Controller, amount: int, now: int)
    ensures var d := Refund(c, amount, now);
            d.admitted == c.admitted && d.refunded == c.refunded + amount && d.mode == c.mode
  {
    RefillBooks(c, now);
  }

  lemma PassInv(s: Shared, w: nat, now: int, asleep: int)
    requires Inv(s) && Enabled(s, Pass(w, now, asleep))
    ensures Inv(Apply(s, Pass(w, now, asleep)))
  {
    var c := s.calls[w];
    var amount := Chunk(c, s.controller.burst);
    assert CallOk(s.controller.mode, c);
    BurstIsPositive(s.controller, s.clock);
    ReachableOneMore(s.controller, s.clock, DoAttempt(amount, now, asleep));
    AttemptBooks(s.controller, amount, now, asleep);
    TakenUpdate(s.calls, w, Took(c, amount), false);
    TakenUpdate(s.calls, w, Took(c, amount), true);
  }

  lemma CancelInv(s: Shared, w: nat, now: int)
    requires Inv(s) && Enabled(s, Cancel(w, now))
    ensures Inv(Apply(s, Cancel(w, now)))
  {
    var c := s.calls[w];
    assert CallOk(s.controller.mode, c);
    ReachableOneMore(s.controller, s.clock, DoRefund(c.taken, now));
    RefundBooks(s.controller, c.taken, now);
    TakenUpdate(s.calls, w, c.(status := Cancelled), false);
    TakenUpdate(s.calls, w, c.(status := Cancelled), true);
  }

  lemma ElsewhereInv(s: Shared, e: Event)
    requires Inv(s) && Enabled(s, Elsewhere(e))
    ensures Inv(Apply(s, Elsewhere(e)))
  {
    ReachableOneMore(s.controller, s.clock, e);
    match e
    case DoObserve(snapshot, t) => ObserveBooks(s.controller, snapshot, t);
    case DoSetRate(_, now) => RefillBooks(s.controller, now);
  }

  lemma StepInv(s: Shared, step: Step)
    requires Inv(s) && Enabled(s, step)
    ensures Inv(Apply(s, step))
  {
    match step
    case Begin(size) =>
      TakenAppend(s.calls, Opened(s.controller, size), false);
      TakenAppend(s.calls, Opened(s.controller, size), true);
    case Acquire(_) =>
    case Pass(w, now, asleep) => PassInv(s, w, now, asleep);
    case Rouse(_, now) => ReachableOneMore(s.controller, s.clock, DoWake(now));
    case Cancel(w, now) => CancelInv(s, w, now);
    case Elsewhere(e) => ElsewhereInv(s, e);
  }

  lemma {:induction false} RunInv(from: Shared, steps: seq<Step>, s: Shared)
    requires Inv(from) && Reaches(from, steps, s)
    ensures Inv(s)
    decreases |steps|
  {
    if steps == [] {
    } else {
      StepInv(from, steps[0]);
      RunInv(Apply(from, steps[0]), steps[1..], s);
    }
  }

  lemma ReachableInv(s: Shared)
    requires ReachableWaits(s)
    ensures Inv(s)
  {
    var k: Config, now: int, steps :| Normalized(k) && Reaches(Init(k, now), steps, s);
    NewIsReachable(k, now);
    RunInv(Init(k, now), steps, s);
  }

  /** The controller's own part of a shared run is a run of its sections. */
  lemma {:induction false} Project(from: Shared, steps: seq<Step>, s: Shared) returns (events: seq<Event>)
    requires Inv(from) && Reaches(from, steps, s)
    ensures Run(from.controller, from.clock, events, s.controller) && s.clock == ClockAfterRun(from.clock, events)
    decreases |steps|
  {
    if steps == [] {
      events := [];
    } else {
      var next, e := Apply(from, steps[0]), EventOf(from, steps[0]);
      StepInv(from, steps[0]);
      var rest := Project(next, steps[1..], s);
      if e == None {
        events := rest;
      } else {
        EventIsEnabled(from, steps[0]);
        events := [e.value] + rest;
        assert events[1..] == rest;
      }
    }
  }

  lemma EventIsEnabled(s: Shared, step: Step)
    requires Inv(s) && Enabled(s, step) && EventOf(s, step).Some?
    ensures Pacer.Enabled(s.controller, s.clock, EventOf(s, step).value)
  {
    BurstIsPositive(s.controller, s.clock);
    if step.Pass? || step.Cancel? { assert CallOk(s.controller.mode, s.calls[step.call]); }
  }

  /** What the calls that were not cancelled have taken. */
  function Kept(s: Shared): int { TakenBy(s.calls, false) - TakenBy(s.calls, true) }

  /** The books balance in every interleaving: refunds never exceed admissions, a finished call has taken
      exactly its size, and what is admitted and not refunded is what the calls that were not cancelled took. */
  lemma BooksBalance(s: Shared)
    requires ReachableWaits(s)
    ensures 0 <= s.controller.refunded <= s.controller.admitted
    ensures s.controller.admitted - s.controller.refunded == Kept(s)
    ensures forall w :: 0 <= w < |s.calls| && s.calls[w].status == Finished && s.controller.mode != Reno ==>
              s.calls[w].taken == s.calls[w].size
  {
    ReachableInv(s);
    TakenBounds(s.controller.mode, s.calls);
    forall w | 0 <= w < |s.calls| ensures CallOk(s.controller.mode, s.calls[w]) { }
  }

  /** Over any window of any such run, what calls take and keep is at most one burst more than the rate in
      force integrates to. */
  lemma KeptIsPaced(from: Shared, steps: seq<Step>, s: Shared)
    requires ReachableWaits(from) && Reaches(from, steps, s)
    ensures (Kept(s) - Kept(from)) as real <= from.controller.burst as real
              + (Integrated(s.controller, s.clock) - Integrated(from.controller, from.clock))
  {
    ReachableInv(from);
    RunInv(from, steps, s);
    var events := Project(from, steps, s);
    AdmissionBound(from.controller, from.clock, from.clock, events, s.controller, s.clock);
  }
}
