/** Whom the tracker admits, and that a shutdown can always finish. */
module ConnTrackerLaws {
  import opened Basics
  import opened ConnTracker

  // ---- admission ----

  /** No shutdown has reached the tracker yet. */
  predicate NoneStopped(calls: seq<Shutdown>) { forall d :: 0 <= d < |calls| ==> calls[d] == Starting }

  /** The tracker accepts exactly until the first shutdown stops it. */
  predicate AcceptsInTime(s: System) { s.gate.accepting <==> NoneStopped(s.shutdowns) }

  lemma CallStays(calls: seq<Shutdown>, d: nat, x: Shutdown)
    requires d < |calls| && x != Starting
    ensures !NoneStopped(calls[d := x])
  {
    assert calls[d := x][d] == x;
  }

  lemma StepAcceptsInTime(s: System, step: Step)
    requires Inv(s) && AcceptsInTime(s) && Enabled(s, step)
    ensures AcceptsInTime(Apply(s, step))
  {
    match step
    case StopAccepting(d) => CallStays(s.shutdowns, d, Stopped);
    case ReadZero(d) => CallStays(s.shutdowns, d, Waiting(s.gate.zero));
    case SeeZero(d) => CallStays(s.shutdowns, d, Succeeded);
    case Expire(d) => CallStays(s.shutdowns, d, Expired);
    case Snapshot(d) => CallStays(s.shutdowns, d, Closing(s.gate.tracked));
    case CloseReturns(d, c) => CallStays(s.shutdowns, d, Closing(s.shutdowns[d].todo - {c}));
    case GiveUp(d) => CallStays(s.shutdowns, d, Failed);
    case BeginShutdown =>
      assert NoneStopped(s.shutdowns + [Starting]) <==> NoneStopped(s.shutdowns) by {
        if NoneStopped(s.shutdowns + [Starting]) {
          forall d | 0 <= d < |s.shutdowns| ensures s.shutdowns[d] == Starting {
            assert (s.shutdowns + [Starting])[d] == s.shutdowns[d];
          }
        }
      }
    case _ =>
  }

  lemma {:induction false} RunAcceptsInTime(from: System, steps: seq<Step>, s: System)
    requires Inv(from) && AcceptsInTime(from) && Reaches(from, steps, s)
    ensures AcceptsInTime(s)
    decreases |steps|
  {
    if steps == [] {
    } else {
      StepInv(from, steps[0]);
      StepAcceptsInTime(from, steps[0]);
      RunAcceptsInTime(Apply(from, steps[0]), steps[1..], s);
    }
  }

  /** A connection is let in exactly if no shutdown has stopped the tracker and there are fewer than the maximum. */
  lemma AdmissionIsExact(max: int, s: System, c: nat)
    requires Reachable(max, s) && Enabled(s, Offer(c))
    ensures var t := Apply(s, Offer(c));
      if NoneStopped(s.shutdowns) && |s.gate.tracked| < max
      then t.conns[c].phase == Open && t.gate.tracked == s.gate.tracked + {c}
      else t.conns[c].phase == Refused && t.gate == s.gate
  {
    var steps :| Reaches(Init(max), steps, s);
    InitInv(max);
    RunAcceptsInTime(Init(max), steps, s);
    MaxIsKept(Init(max), steps, s);
  }

  // ---- a shutdown can always finish ----

  /** Whatever closeAll still waits for is being closed or closed already. */
  predicate TodoOk(s: System, x: Shutdown) {
    x.Closing? ==> forall c <- x.todo :: c < |s.conns| && (IsTracked(s.conns[c]) || s.conns[c].phase.Closed?)
  }

  predicate TodosOk(s: System) { forall d :: 0 <= d < |s.shutdowns| ==> TodoOk(s, s.shutdowns[d]) }

  /** No tracked or closed connection becomes anything else. */
  predicate ConnsGoOn(s: System, t: System) {
    |s.conns| <= |t.conns| &&
    forall c :: 0 <= c < |s.conns| && (IsTracked(s.conns[c]) || s.conns[c].phase.Closed?) ==>
      IsTracked(t.conns[c]) || t.conns[c].phase.Closed?
  }

  lemma StepGoesOn(s: System, step: Step)
    requires Enabled(s, step)
    ensures ConnsGoOn(s, Apply(s, step))
  {
  }

  lemma StepTodosOk(s: System, step: Step)
    requires Inv(s) && TodosOk(s) && Enabled(s, step)
    ensures TodosOk(Apply(s, step))
  {
    var t := Apply(s, step);
    StepGoesOn(s, step);
    forall d | 0 <= d < |t.shutdowns| ensures TodoOk(t, t.shutdowns[d]) {
      if d < |s.shutdowns| { assert TodoOk(s, s.shutdowns[d]); }
    }
  }

  lemma {:induction false} RunTodosOk(from: System, steps: seq<Step>, s: System)
    requires Inv(from) && TodosOk(from) && Reaches(from, steps, s)
    ensures TodosOk(s)
    decreases |steps|
  {
    if steps == [] {
    } else {
      StepInv(from, steps[0]);
      StepTodosOk(from, steps[0]);
      RunTodosOk(Apply(from, steps[0]), steps[1..], s);
    }
  }

  function Stage(p: Phase): nat {
    match p
    case Open => 4
    case Entered => 3
    case Taken(_) => 2
    case Removing => 1
    case _ => 0
  }

  function Stages(conns: seq<Conn>): nat { if conns == [] then 0 else Stage(conns[0].phase) + Stages(conns[1..]) }

  lemma {:induction false} StagesUpdate(conns: seq<Conn>, c: nat, conn: Conn)
    requires c < |conns|
    ensures Stages(conns[c := conn]) == Stages(conns) - Stage(conns[c].phase) + Stage(conn.phase)
  {
    var next := conns[c := conn];
    if c == 0 {
      assert next[1..] == conns[1..];
    } else {
      StagesUpdate(conns[1..], c - 1, conn);
      assert next[1..] == conns[1..][c - 1 := conn];
    }
  }

  /** What the Close of a tracked connection does next. */
  function NextOfClose(p: Phase, c: nat): Step {
    match p
    case Open => CloseEnter(c)
    case Entered => CloseMark(c)
    case Taken(_) => CloseCancel(c)
    case _ => CloseRemove(c)
  }

  lemma CloseGoesOn(s: System, c: nat)
    requires Inv(s) && c in s.gate.tracked
    ensures var step := NextOfClose(s.conns[c].phase, c);
      && Enabled(s, step) && Apply(s, step).shutdowns == s.shutdowns
      && Stages(Apply(s, step).conns) < Stages(s.conns)
  {
    var step := NextOfClose(s.conns[c].phase, c);
    StagesUpdate(s.conns, c, Apply(s, step).conns[c]);
  }

  /** Once Close of every tracked connection has run, nothing is tracked. */
  lemma {:induction false} CloseEverything(s: System) returns (steps: seq<Step>, q: System)
    requires Inv(s) && TodosOk(s)
    ensures Reaches(s, steps, q) && Inv(q) && TodosOk(q) && q.gate.tracked == {} && q.shutdowns == s.shutdowns
    decreases Stages(s.conns)
  {
    if s.gate.tracked == {} {
      steps, q := [], s;
    } else {
      var c :| c in s.gate.tracked;
      var step := NextOfClose(s.conns[c].phase, c);
      CloseGoesOn(s, c);
      StepInv(s, step);
      StepTodosOk(s, step);
      var rest;
      rest, q := CloseEverything(Apply(s, step));
      steps := [step] + rest;
      assert steps[1..] == rest;
    }
  }

  /** How much of a call of shutdown is left when nothing is tracked. */
  function Left(x: Shutdown): nat {
    match x
    case Starting => 4
    case Stopped => 3
    case Waiting(_) => 1
    case Expired => 2
    case Closing(todo) => 1 + |todo|
    case _ => 0
  }

  /** What the call does next when nothing is tracked. */
  ghost function NextOfShutdown(x: Shutdown, d: nat): Step {
    match x
    case Starting => StopAccepting(d)
    case Stopped => ReadZero(d)
    case Waiting(_) => SeeZero(d)
    case Expired => Snapshot(d)
    case Closing(todo) => if todo == {} then GiveUp(d) else var c :| c in todo; CloseReturns(d, c)
    case _ => BeginShutdown
  }

  lemma ShutdownGoesOn(s: System, d: nat)
    requires Inv(s) && TodosOk(s) && s.gate.tracked == {} && d < |s.shutdowns| && !Returned(s.shutdowns[d])
    ensures var step := NextOfShutdown(s.shutdowns[d], d);
      && Enabled(s, step) && Apply(s, step).gate.tracked == {} && d < |Apply(s, step).shutdowns|
      && Left(Apply(s, step).shutdowns[d]) < Left(s.shutdowns[d])
  {
    CallInvAt(s, d);
    assert TodoOk(s, s.shutdowns[d]);
  }

  lemma {:induction false} FinishShutdown(s: System, d: nat) returns (steps: seq<Step>, q: System)
    requires Inv(s) && TodosOk(s) && s.gate.tracked == {} && d < |s.shutdowns|
    ensures Reaches(s, steps, q) && d < |q.shutdowns| && Returned(q.shutdowns[d])
    decreases if d < |s.shutdowns| then Left(s.shutdowns[d]) else 0
  {
    if Returned(s.shutdowns[d]) {
      steps, q := [], s;
    } else {
      var step := NextOfShutdown(s.shutdowns[d], d);
      ShutdownGoesOn(s, d);
      StepInv(s, step);
      StepTodosOk(s, step);
      var rest;
      rest, q := FinishShutdown(Apply(s, step), d);
      steps := [step] + rest;
      assert steps[1..] == rest;
    }
  }

  lemma {:induction false} ReachesOn(from: System, first: seq<Step>, mid: System, second: seq<Step>, s: System)
    requires Reaches(from, first, mid) && Reaches(mid, second, s)
    ensures Reaches(from, first + second, s)
    decreases |first|
  {
    if first == [] {
      assert first + second == second;
    } else {
      ReachesOn(Apply(from, first[0]), first[1..], mid, second, s);
      assert (first + second)[1..] == first[1..] + second;
    }
  }

  /** From every reachable state, however far each Close and each shutdown has come, every connection can be closed
      and every shutdown can return; then nothing is tracked. */
  lemma ShutdownCanFinish(max: int, s: System, d: nat) returns (steps: seq<Step>, q: System)
    requires Reachable(max, s) && d < |s.shutdowns|
    ensures Reaches(s, steps, q) && d < |q.shutdowns| && Returned(q.shutdowns[d]) && q.gate.tracked == {}
  {
    var before :| Reaches(Init(max), before, s);
    InitInv(max);
    RunInv(Init(max), before, s);
    RunTodosOk(Init(max), before, s);
    var closing, mid := CloseEverything(s);
    var finishing, end := FinishShutdown(mid, d);
    ReachesOn(s, closing, mid, finishing, end);
    steps, q := closing + finishing, end;
    RunInv(s, steps, q);
    CallInvAt(q, d);
  }
}
