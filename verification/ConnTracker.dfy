/**
 * Connection tracking and shutdown of internal/proxy/lifecycle.go: the tracker's critical sections as
 * functions, and a step system in which accepts, closes, context registrations and shutdowns interleave.
 */
module ConnTracker {
  import opened Basics

  /** connTracker. A channel is the index of its allocation; `closes` counts how often each was closed. */
  datatype Gate<!C(==)> = Gate(accepting: bool, max: int, tracked: set<C>, zero: nat, closes: seq<nat>)

  function NewGate<C>(max: int): Gate<C> { Gate(true, max, {}, 0, [1]) }

  predicate Admits<C>(g: Gate<C>) { g.accepting && |g.tracked| < g.max }

  /** The part of add that follows the check. */
  function Added<C>(g: Gate<C>, c: C): Gate<C> {
    var h := if g.tracked == {} then g.(zero := |g.closes|, closes := g.closes + [0]) else g;
    h.(tracked := h.tracked + {c})
  }

  function Removed<C>(g: Gate<C>, c: C): Gate<C>
    requires g.zero < |g.closes|
  {
    if c !in g.tracked then g
    else
      var h := g.(tracked := g.tracked - {c});
      if h.tracked == {} then h.(closes := h.closes[h.zero := h.closes[h.zero] + 1]) else h
  }

  /** Every channel but the current one is closed, and the current one exactly when nothing is tracked. */
  predicate GateInv<C>(g: Gate<C>) {
    && g.zero < |g.closes|
    && (forall i :: 0 <= i < |g.closes| ==> g.closes[i] == if i == g.zero && g.tracked != {} then 0 else 1)
    && |g.tracked| <= Max(g.max, 0)
  }

  lemma AddKeeps<C>(g: Gate<C>, c: C)
    requires GateInv(g) && Admits(g)
    ensures GateInv(Added(g, c))
  {
  }

  lemma RemoveKeeps<C>(g: Gate<C>, c: C)
    requires GateInv(g)
    ensures GateInv(Removed(g, c)) && Removed(g, c).tracked == g.tracked - {c}
  {
  }

  // ---- connections and shutdowns ----

  /** How far Close of a connection has come; the body of its sync.Once runs in three sections. */
  datatype Phase =
    | Fresh                   // accepted, not yet offered to the tracker
    | Refused
    | Open
    | Entered                 // before closeMu
    | Taken(cancel: bool)     // marked closed, the cancel function taken if there was one
    | Removing                // context cancelled, before tracker.remove
    | Closed

  /** How far connectionContext has come. */
  datatype Context = Absent | Created | Doomed | Registered | Cancelled

  datatype Conn = Conn(phase: Phase, slot: bool, context: Context)

  predicate Marked(c: Conn) { c.phase.Taken? || c.phase.Removing? || c.phase.Closed? }

  /** How far one call of shutdown has come. */
  datatype Shutdown =
    | Starting
    | Stopped
    | Waiting(zero: nat)
    | Succeeded
    | Expired
    | Closing(todo: set<nat>)
    | Failed

  datatype System = System(gate: Gate<nat>, conns: seq<Conn>, shutdowns: seq<Shutdown>)

  datatype Step =
    | Accept
    | Offer(conn: nat)
    | CloseEnter(conn: nat)
    | CloseMark(conn: nat)
    | CloseCancel(conn: nat)
    | CloseRemove(conn: nat)
    | MakeContext(conn: nat)
    | Register(conn: nat)
    | CancelDoomed(conn: nat)
    | BeginShutdown
    | StopAccepting(call: nat)
    | ReadZero(call: nat)
    | SeeZero(call: nat)
    | Expire(call: nat)
    | Snapshot(call: nat)
    | CloseReturns(call: nat, conn: nat)
    | GiveUp(call: nat)

  function Init(max: int): System { System(NewGate(max), [], []) }

  predicate InPhase(s: System, c: nat, p: Phase) { c < |s.conns| && s.conns[c].phase == p }

  predicate InContext(s: System, c: nat, x: Context) { c < |s.conns| && s.conns[c].context == x }

  predicate InCall(s: System, d: nat, x: Shutdown) { d < |s.shutdowns| && s.shutdowns[d] == x }

  predicate Enabled(s: System, step: Step) {
    match step
    case Accept => true
    case Offer(c) => InPhase(s, c, Fresh)
    case CloseEnter(c) => InPhase(s, c, Open)
    case CloseMark(c) => InPhase(s, c, Entered)
    case CloseCancel(c) => c < |s.conns| && s.conns[c].phase.Taken?
    case CloseRemove(c) => InPhase(s, c, Removing) && s.gate.zero < |s.gate.closes|
    case MakeContext(c) => InContext(s, c, Absent) && !s.conns[c].phase.Fresh? && !s.conns[c].phase.Refused?
    case Register(c) => InContext(s, c, Created)
    case CancelDoomed(c) => InContext(s, c, Doomed)
    case BeginShutdown => true
    case StopAccepting(d) => InCall(s, d, Starting)
    case ReadZero(d) => InCall(s, d, Stopped)
    case SeeZero(d) =>
      d < |s.shutdowns| && s.shutdowns[d].Waiting? && s.shutdowns[d].zero < |s.gate.closes| &&
      s.gate.closes[s.shutdowns[d].zero] > 0
    case Expire(d) => d < |s.shutdowns| && s.shutdowns[d].Waiting?
    case Snapshot(d) => InCall(s, d, Expired)
    case CloseReturns(d, c) =>
      d < |s.shutdowns| && s.shutdowns[d].Closing? && c in s.shutdowns[d].todo && InPhase(s, c, Closed)
    case GiveUp(d) => InCall(s, d, Closing({}))
  }

  function WithConn(s: System, c: nat, conn: Conn): System
    requires c < |s.conns|
  {
    s.(conns := s.conns[c := conn])
  }

  function WithCall(s: System, d: nat, x: Shutdown): System
    requires d < |s.shutdowns|
  {
    s.(shutdowns := s.shutdowns[d := x])
  }

  /** The closeMu section of Close. */
  function Mark(c: Conn): Conn { c.(phase := Taken(c.slot), slot := false) }

  /** The call of the taken cancel function, if any. */
  function CancelTaken(c: Conn): Conn
    requires c.phase.Taken?
  {
    c.(phase := Removing, context := if c.phase.cancel then Cancelled else c.context)
  }

  /** The closeMu section of connectionContext. */
  function Enroll(c: Conn): Conn {
    if Marked(c) then c.(context := Doomed) else c.(context := Registered, slot := true)
  }

  function Apply(s: System, step: Step): System
    requires Enabled(s, step)
  {
    match step
    case Accept => s.(conns := s.conns + [Conn(Fresh, false, Absent)])
    case Offer(c) =>
      if Admits(s.gate) then WithConn(s, c, s.conns[c].(phase := Open)).(gate := Added(s.gate, c))
      else WithConn(s, c, s.conns[c].(phase := Refused))
    case CloseEnter(c) => WithConn(s, c, s.conns[c].(phase := Entered))
    case CloseMark(c) => WithConn(s, c, Mark(s.conns[c]))
    case CloseCancel(c) => WithConn(s, c, CancelTaken(s.conns[c]))
    case CloseRemove(c) => WithConn(s, c, s.conns[c].(phase := Closed)).(gate := Removed(s.gate, c))
    case MakeContext(c) => WithConn(s, c, s.conns[c].(context := Created))
    case Register(c) => WithConn(s, c, Enroll(s.conns[c]))
    case CancelDoomed(c) => WithConn(s, c, s.conns[c].(context := Cancelled))
    case BeginShutdown => s.(shutdowns := s.shutdowns + [Starting])
    case StopAccepting(d) => WithCall(s, d, Stopped).(gate := s.gate.(accepting := false))
    case ReadZero(d) => WithCall(s, d, Waiting(s.gate.zero))
    case SeeZero(d) => WithCall(s, d, Succeeded)
    case Expire(d) => WithCall(s, d, Expired)
    case Snapshot(d) => WithCall(s, d, Closing(s.gate.tracked))
    case CloseReturns(d, c) => WithCall(s, d, Closing(s.shutdowns[d].todo - {c}))
    case GiveUp(d) => WithCall(s, d, Failed)
  }

  ghost predicate Reaches(from: System, steps: seq<Step>, s: System)
    decreases |steps|
  {
    if steps == [] then s == from
    else Enabled(from, steps[0]) && Reaches(Apply(from, steps[0]), steps[1..], s)
  }

  // ---- the invariant ----

  predicate IsTracked(c: Conn) { c.phase.Open? || c.phase.Entered? || c.phase.Taken? || c.phase.Removing? }

  predicate TrackedInv(tracked: set<nat>, conns: seq<Conn>) {
    && (forall c :: c in tracked ==> c < |conns| && IsTracked(conns[c]))
    && (forall c :: 0 <= c < |conns| && IsTracked(conns[c]) ==> c in tracked)
  }

  /** A live context is registered in its connection, or in the hands of the Close that took it. */
  predicate ConnInv(c: Conn) {
    && (c.slot ==> c.context.Registered? && !Marked(c))
    && (c.context.Registered? ==> c.slot || c.phase == Taken(true))
    && (c.phase == Taken(true) ==> c.context.Registered?)
    && (c.context.Doomed? ==> Marked(c))
    && (c.phase.Fresh? || c.phase.Refused? ==> c.context.Absent?)
  }

  predicate ConnsInv(conns: seq<Conn>) { forall c :: 0 <= c < |conns| ==> ConnInv(conns[c]) }

  predicate CallInv(g: Gate<nat>, d: Shutdown) {
    match d
    case Starting => true
    case Stopped => !g.accepting
    case Waiting(zero) => !g.accepting && zero == g.zero
    case Succeeded => !g.accepting && g.tracked == {}
    case Expired => !g.accepting
    case Closing(todo) => !g.accepting && g.tracked <= todo
    case Failed => !g.accepting && g.tracked == {}
  }

  predicate CallsInv(g: Gate<nat>, calls: seq<Shutdown>) { forall d :: 0 <= d < |calls| ==> CallInv(g, calls[d]) }

  predicate Inv(s: System) {
    GateInv(s.gate) && TrackedInv(s.gate.tracked, s.conns) && ConnsInv(s.conns) && CallsInv(s.gate, s.shutdowns)
  }

  lemma InitInv(max: int)
    ensures Inv(Init(max))
  {
  }

  lemma OfferInv(s: System, c: nat)
    requires Inv(s) && Enabled(s, Offer(c))
    ensures Inv(Apply(s, Offer(c)))
  {
    if Admits(s.gate) { AddKeeps(s.gate, c); }
  }

  lemma RemoveInv(s: System, c: nat)
    requires Inv(s) && Enabled(s, CloseRemove(c))
    ensures Inv(Apply(s, CloseRemove(c)))
  {
    RemoveKeeps(s.gate, c);
    RemoveCalls(s.gate, c, s.shutdowns);
    UntrackedInv(s.gate.tracked, s.conns, c);
  }

  lemma UntrackedInv(tracked: set<nat>, conns: seq<Conn>, c: nat)
    requires TrackedInv(tracked, conns) && ConnsInv(conns) && c < |conns| && conns[c].phase == Removing
    ensures var next := conns[c := conns[c].(phase := Closed)]; TrackedInv(tracked - {c}, next) && ConnsInv(next)
  {
  }

  lemma RemoveCalls(before: Gate<nat>, c: nat, calls: seq<Shutdown>)
    requires GateInv(before) && CallsInv(before, calls)
    ensures CallsInv(Removed(before, c), calls)
  {
    var g := Removed(before, c);
    forall d | 0 <= d < |calls| ensures CallInv(g, calls[d]) {
      assert CallInv(before, calls[d]);
    }
  }

  lemma ConnStepInv(s: System, c: nat, conn: Conn)
    requires Inv(s) && c < |s.conns| && ConnInv(conn) && IsTracked(conn) == IsTracked(s.conns[c])
    ensures Inv(WithConn(s, c, conn))
  {
  }

  lemma CallStepInv(s: System, d: nat, x: Shutdown, accepting: bool)
    requires Inv(s) && d < |s.shutdowns| && (accepting ==> s.gate.accepting)
    requires CallInv(s.gate.(accepting := accepting), x)
    ensures Inv(WithCall(s, d, x).(gate := s.gate.(accepting := accepting)))
  {
    var g := s.gate.(accepting := accepting);
    forall e | 0 <= e < |s.shutdowns| ensures CallInv(g, s.shutdowns[e]) {
      assert CallInv(s.gate, s.shutdowns[e]);
    }
  }

  /** A call that has snapshotted waits only for connections that are still open. */
  lemma ReturnsInv(s: System, d: nat, c: nat)
    requires Inv(s) && Enabled(s, CloseReturns(d, c))
    ensures Inv(Apply(s, CloseReturns(d, c)))
  {
    assert CallInv(s.gate, s.shutdowns[d]);
    assert c !in s.gate.tracked;
    CallStepInv(s, d, Closing(s.shutdowns[d].todo - {c}), s.gate.accepting);
  }

  lemma CallInvAt(s: System, d: nat)
    requires Inv(s) && d < |s.shutdowns|
    ensures CallInv(s.gate, s.shutdowns[d])
  {
  }

  lemma StepInv(s: System, step: Step)
    requires Inv(s) && Enabled(s, step)
    ensures Inv(Apply(s, step))
  {
    match step
    case Accept =>
    case Offer(c) => OfferInv(s, c);
    case CloseEnter(c) => ConnStepInv(s, c, s.conns[c].(phase := Entered));
    case CloseMark(c) => ConnStepInv(s, c, Mark(s.conns[c]));
    case CloseCancel(c) => ConnStepInv(s, c, CancelTaken(s.conns[c]));
    case CloseRemove(c) => RemoveInv(s, c);
    case MakeContext(c) => ConnStepInv(s, c, s.conns[c].(context := Created));
    case Register(c) => ConnStepInv(s, c, Enroll(s.conns[c]));
    case CancelDoomed(c) => ConnStepInv(s, c, s.conns[c].(context := Cancelled));
    case BeginShutdown =>
    case StopAccepting(d) => CallStepInv(s, d, Stopped, false);
    case ReadZero(d) => CallInvAt(s, d); CallStepInv(s, d, Waiting(s.gate.zero), s.gate.accepting);
    case SeeZero(d) => CallInvAt(s, d); CallStepInv(s, d, Succeeded, s.gate.accepting);
    case Expire(d) => CallInvAt(s, d); CallStepInv(s, d, Expired, s.gate.accepting);
    case Snapshot(d) => CallInvAt(s, d); CallStepInv(s, d, Closing(s.gate.tracked), s.gate.accepting);
    case CloseReturns(d, c) => ReturnsInv(s, d, c);
    case GiveUp(d) => CallInvAt(s, d); CallStepInv(s, d, Failed, s.gate.accepting);
  }

  lemma {:induction false} RunInv(from: System, steps: seq<Step>, s: System)
    requires Inv(from) && Reaches(from, steps, s)
    ensures Inv(s)
    decreases |steps|
  {
    if steps == [] {
    } else {
      StepInv(from, steps[0]);
      RunInv(Apply(from, steps[0]), steps[1..], s);
    }
  }

  // ---- what every run guarantees ----

  ghost predicate Reachable(max: int, s: System) { exists steps :: Reaches(Init(max), steps, s) }

  lemma ReachableInv(max: int, s: System)
    requires Reachable(max, s)
    ensures Inv(s)
  {
    InitInv(max);
    var steps :| Reaches(Init(max), steps, s);
    RunInv(Init(max), steps, s);
  }

  lemma {:induction false} MaxIsKept(from: System, steps: seq<Step>, s: System)
    requires Reaches(from, steps, s)
    ensures s.gate.max == from.gate.max
    decreases |steps|
  {
    if steps == [] {
    } else {
      MaxIsKept(Apply(from, steps[0]), steps[1..], s);
    }
  }

  /** The zero channel is closed exactly while nothing is tracked, no channel is ever closed twice, and the
      connection limit holds. */
  lemma ZeroChannelIsExact(max: int, s: System)
    requires Reachable(max, s)
    ensures s.gate.zero < |s.gate.closes| && (s.gate.closes[s.gate.zero] > 0 <==> s.gate.tracked == {})
    ensures forall i :: 0 <= i < |s.gate.closes| ==> s.gate.closes[i] <= 1
    ensures |s.gate.tracked| <= Max(max, 0)
    ensures forall c :: c in s.gate.tracked <==> 0 <= c < |s.conns| && IsTracked(s.conns[c])
  {
    ReachableInv(max, s);
    var steps :| Reaches(Init(max), steps, s);
    MaxIsKept(Init(max), steps, s);
  }

  predicate Returned(d: Shutdown) { d.Succeeded? || d.Failed? }

  lemma {:induction false} ReturnedStays(from: System, steps: seq<Step>, s: System, d: nat)
    requires Reaches(from, steps, s) && d < |from.shutdowns| && Returned(from.shutdowns[d])
    ensures d < |s.shutdowns| && s.shutdowns[d] == from.shutdowns[d]
    decreases |steps|
  {
    if steps == [] {
    } else {
      ReturnedStays(Apply(from, steps[0]), steps[1..], s, d);
    }
  }

  /** Once a shutdown has returned, with or without its context's error, nothing is tracked and nothing
      is ever admitted again. */
  lemma ShutdownIsFinal(max: int, s: System, steps: seq<Step>, later: System, d: nat)
    requires Reachable(max, s) && d < |s.shutdowns| && Returned(s.shutdowns[d]) && Reaches(s, steps, later)
    ensures later.gate.tracked == {} && !Admits(later.gate)
    ensures forall c :: 0 <= c < |later.conns| ==> !IsTracked(later.conns[c])
  {
    ReachableInv(max, s);
    RunInv(s, steps, later);
    ReturnedStays(s, steps, later, d);
    CallInvAt(later, d);
  }

  /** A shutdown that waits is told as soon as nothing is tracked. */
  lemma WaiterIsTold(max: int, s: System, d: nat)
    requires Reachable(max, s) && d < |s.shutdowns| && s.shutdowns[d].Waiting?
    ensures Enabled(s, SeeZero(d)) <==> s.gate.tracked == {}
  {
    ReachableInv(max, s);
    CallInvAt(s, d);
  }

  predicate ContextReturned(c: Conn) { c.context.Registered? || c.context.Cancelled? }

  /** Whichever of Close and connectionContext runs first, once both have returned the context is cancelled. */
  lemma CloseCancelsContext(max: int, s: System, c: nat)
    requires Reachable(max, s) && c < |s.conns| && s.conns[c].phase.Closed? && ContextReturned(s.conns[c])
    ensures s.conns[c].context.Cancelled?
  {
    ReachableInv(max, s);
  }

  /** A context is cancelled only after its connection was marked closed. */
  predicate CancelledLate(s: System) {
    forall c :: 0 <= c < |s.conns| && s.conns[c].context.Cancelled? ==> Marked(s.conns[c])
  }

  lemma {:induction false} CancelIsNeverEarly(from: System, steps: seq<Step>, s: System)
    requires Inv(from) && CancelledLate(from) && Reaches(from, steps, s)
    ensures CancelledLate(s)
    decreases |steps|
  {
    if steps == [] {
    } else {
      StepInv(from, steps[0]);
      CancelIsNeverEarly(Apply(from, steps[0]), steps[1..], s);
    }
  }

  lemma OpenConnectionsKeepTheirContext(max: int, s: System, c: nat)
    requires Reachable(max, s) && c < |s.conns| && s.conns[c].context.Cancelled?
    ensures Marked(s.conns[c])
  {
    var steps :| Reaches(Init(max), steps, s);
    InitInv(max);
    CancelIsNeverEarly(Init(max), steps, s);
  }
}
