/** What a dial race achieves, as against what it never does: a connection that opens is not thrown away. */
module DialOutcome {
  import opened Basics
  import opened DialRace

  // ---- nothing is closed before there is a winner ----

  /** Until somebody wins or the caller cancels, no connection is closed and no dial is cancelled. */
  ghost predicate Patient(r: Race) {
    && (r.main in {Racing, Exhausted} && !r.ctxCancelled ==> r.closed == multiset{})
    && (r.main == Racing && !r.ctxCancelled ==> !r.dialCancelled)
  }

  /** What Patient looks at, but for a decision between racing on and giving up. */
  ghost predicate SamePatience(r: Race, q: Race) {
    && q.closed == r.closed && q.ctxCancelled == r.ctxCancelled && q.dialCancelled == r.dialCancelled
    && q.main == r.main
  }

  lemma FaultPatient(q: Race)
    requires Patient(q) && q.main == Racing
    ensures Patient(ReceiveFault(q))
  {
    var p := ArmTimer(StartAnother(NoteFault(q)));
    assert SamePatience(q, p);
    assert ReceiveFault(q) == EndIfIdle(p);
  }

  lemma ReceivePatient(r: Race)
    requires Patient(r) && r.main == Racing && r.results != [] && r.inFlight > 0
    ensures Patient(Receive(r))
  {
    match r.results[0]
    case Conn(i) =>
    case Fault => FaultPatient(TakeFirst(r));
  }

  /** A dial is checked while the race is on, or after its end. */
  lemma ChecksPatient(r: Race, w: nat)
    requires Inv(r) && Patient(r) && Enabled(r, WorkerChecks(w))
    ensures Patient(Apply(r, WorkerChecks(w)))
  {
    HeldUpdate(r.attempts, w, Delivered);
  }

  lemma StepPatient(r: Race, step: Step)
    requires Inv(r) && Patient(r) && Enabled(r, step)
    ensures Patient(Apply(r, step))
  {
    match step
    case WorkerFails(w) => assert SamePatience(r, Apply(r, step));
    case WorkerOpens(w) => assert SamePatience(r, Apply(r, step));
    case WorkerChecks(w) => ChecksPatient(r, w);
    case WorkerSends(w) => assert SamePatience(r, Apply(r, step));
    case MainReceives => ReceivePatient(r);
    case MainTimer => assert SamePatience(r, Apply(r, step));
    case MainSeesCancel =>
    case DrainReceives =>
    case CallerCancels =>
  }

  lemma {:induction false} RunPatient(from: Race, steps: seq<Step>, r: Race)
    requires Inv(from) && Patient(from) && Reaches(from, steps, r)
    ensures Patient(r)
    decreases |steps|
  {
    if steps == [] {
    } else {
      StepInv(from, steps[0]);
      StepPatient(from, steps[0]);
      RunPatient(Apply(from, steps[0]), steps[1..], r);
    }
  }

  lemma ReachablePatient(r: Race)
    requires Reachable(r)
    ensures Inv(r) && Patient(r)
  {
    var total: nat, steps :| total > 0 && Reaches(Init(total), steps, r);
    InitInv(total);
    RunInv(Init(total), steps, r);
    RunPatient(Init(total), steps, r);
  }

  // ---- the outcome ----

  /** A race that fails without being cancelled has opened nothing. */
  lemma FailureMeansNothingOpened(r: Race)
    requires Reachable(r) && r.main == Exhausted && !r.ctxCancelled
    ensures r.dialled == multiset{}
  {
    ReachablePatient(r);
    AccountedFor(r);
  }

  /** If any connection was opened, an uncancelled race returns one, open, and closes the others. */
  lemma OpenedMeansWon(r: Race)
    requires Reachable(r) && r.main != Racing && r.draining == 0 && !r.ctxCancelled && r.dialled != multiset{}
    ensures r.main.Won? && r.dialled[r.main.index] == 1 && r.closed[r.main.index] == 0
    ensures r.dialled == r.closed + multiset{r.main.index}
  {
    ReachablePatient(r);
    AccountedFor(r);
    EveryConnectionAccountedFor(r);
  }

  /** A connection is open, or one will be: of an attempt under way, or of an address not tried yet. */
  ghost predicate Hope(r: Race, opens: nat -> bool) {
    r.dialled != multiset{}
    || exists i: nat :: i < r.total && opens(i) && (i < |r.attempts| ==> r.attempts[i] == Dialing)
  }

  /** The race goes on with the same hope, ends in a win with hope, or fails without. */
  ghost predicate Keeps(r: Race, q: Race, opens: nat -> bool) {
    && !q.ctxCancelled
    && match q.main
       case Racing => Hope(q, opens) == Hope(r, opens)
       case Won(_) => Hope(r, opens)
       case _ => !Hope(r, opens)
  }

  /** The same connections and the same addresses still to come. */
  ghost predicate SameProspects(r: Race, q: Race, opens: nat -> bool) {
    && q.dialled == r.dialled && q.total == r.total && |r.attempts| <= |q.attempts| <= q.total
    && forall i: nat :: i < r.total && opens(i) ==>
         ((i < |q.attempts| ==> q.attempts[i] == Dialing) <==> (i < |r.attempts| ==> r.attempts[i] == Dialing))
  }

  lemma SameProspectsSameHope(r: Race, q: Race, opens: nat -> bool)
    requires SameProspects(r, q, opens)
    ensures Hope(q, opens) == Hope(r, opens)
  {
    if Hope(r, opens) && r.dialled == multiset{} {
      var i: nat :| i < r.total && opens(i) && (i < |r.attempts| ==> r.attempts[i] == Dialing);
      assert i < |q.attempts| ==> q.attempts[i] == Dialing;
    }
    if Hope(q, opens) && q.dialled == multiset{} {
      var i: nat :| i < q.total && opens(i) && (i < |q.attempts| ==> q.attempts[i] == Dialing);
      assert i < |r.attempts| ==> r.attempts[i] == Dialing;
    }
  }

  lemma FaultProspects(q: Race, opens: nat -> bool)
    requires |q.attempts| == q.next <= q.total
    ensures SameProspects(q, ReceiveFault(q), opens)
  {
  }

  lemma {:induction false} NoneOutstanding(s: seq<Attempt>, i: nat)
    requires Outstanding(s) == 0 && i < |s|
    ensures s[i] == Delivered
  {
    if i == |s| - 1 {
    } else {
      NoneOutstanding(s[..|s| - 1], i);
    }
  }

  /** When every address has failed there is no hope. */
  lemma ExhaustedIsHopeless(r: Race, opens: nat -> bool)
    requires Inv(r) && Patient(r) && r.main == Exhausted && !r.ctxCancelled
    ensures !Hope(r, opens)
  {
    AccountedFor(r);
    forall i: nat | i < r.total ensures i < |r.attempts| && r.attempts[i] == Delivered {
      NoneOutstanding(r.attempts, i);
    }
  }

  lemma ConnKeeps(r: Race, opens: nat -> bool)
    requires Inv(r) && r.main == Racing && !r.ctxCancelled && r.results != [] && r.inFlight > 0 && r.results[0].Conn?
    ensures Keeps(r, Receive(r), opens)
  {
    TakeOwned(r);
    assert r.results[0].index in r.dialled;
  }

  /** A fault after which the race goes on changes no prospects. */
  lemma FaultKeeps(r: Race, opens: nat -> bool)
    requires Inv(r) && r.main == Racing && !r.ctxCancelled && r.results != [] && r.inFlight > 0 && r.results[0].Fault?
    ensures var q := Receive(r);
      !q.ctxCancelled && q.total == r.total && Hope(q, opens) == Hope(r, opens) && q.main in {Racing, Exhausted}
  {
    FaultProspects(TakeFirst(r), opens);
    FaultOutcome(TakeFirst(r));
    SameProspectsSameHope(TakeFirst(r), Receive(r), opens);
    SameProspectsSameHope(r, TakeFirst(r), opens);
  }

  lemma FaultOutcome(q: Race)
    requires q.main == Racing
    ensures var p := ReceiveFault(q); p.main in {Racing, Exhausted} && p.ctxCancelled == q.ctxCancelled
  {
  }

  lemma ReceiveKeeps(r: Race, opens: nat -> bool)
    requires Inv(r) && Patient(r) && r.main == Racing && !r.ctxCancelled && r.results != [] && r.inFlight > 0
    ensures Keeps(r, Receive(r), opens)
  {
    if r.results[0].Conn? {
      ConnKeeps(r, opens);
    } else {
      FaultKeeps(r, opens);
      StepInv(r, MainReceives);
      StepPatient(r, MainReceives);
      if Receive(r).main == Exhausted { ExhaustedIsHopeless(Receive(r), opens); }
    }
  }

  lemma WorkerKeeps(r: Race, step: Step, opens: nat -> bool)
    requires Inv(r) && r.main == Racing && !r.ctxCancelled && Enabled(r, step)
    requires step.WorkerFails? || step.WorkerOpens? || step.WorkerChecks? || step.WorkerSends?
    requires (step.WorkerOpens? ==> opens(step.worker)) && (step.WorkerFails? ==> !opens(step.worker))
    ensures Keeps(r, Apply(r, step), opens)
  {
    var q := Apply(r, step);
    if step.WorkerOpens? {
      assert step.worker < r.total && opens(step.worker) && r.attempts[step.worker] == Dialing;
      assert step.worker in q.dialled;
    } else {
      WorkerProspects(r, step, q, opens);
      SameProspectsSameHope(r, q, opens);
    }
  }

  /** A worker that does not open a connection changes its own place only. */
  lemma WorkerProspects(r: Race, step: Step, q: Race, opens: nat -> bool)
    requires Counted(r) && Enabled(r, step) && q == Apply(r, step)
    requires step.WorkerFails? || step.WorkerChecks? || step.WorkerSends?
    requires step.WorkerFails? ==> !opens(step.worker)
    ensures SameProspects(r, q, opens)
  {
    assert q.attempts == r.attempts[step.worker := q.attempts[step.worker]];
  }

  lemma {:induction false} NextStepFollowsOpens(r: Race, opens: nat -> bool, w: nat)
    ensures var step := NextStep(r, opens, w);
      match step
      case None => true
      case Some(WorkerOpens(v)) => opens(v)
      case Some(WorkerFails(v)) => !opens(v)
      case Some(MainReceives) => r.main == Racing
      case Some(DrainReceives) => r.main != Racing
      case Some(other) => other.WorkerChecks? || other.WorkerSends?
    decreases |r.attempts| - w
  {
    if w < |r.attempts| && r.attempts[w] == Delivered { NextStepFollowsOpens(r, opens, w + 1); }
  }

  /** After a race is decided nothing changes the decision. */
  ghost predicate Decides(r: Race, q: Race, opens: nat -> bool) {
    if r.main == Racing then Keeps(r, q, opens) else q.main == r.main && !q.ctxCancelled
  }

  lemma NextStepDecides(r: Race, opens: nat -> bool)
    requires Inv(r) && Patient(r) && !r.ctxCancelled && NextStep(r, opens, 0).Some?
    ensures var step := NextStep(r, opens, 0).value;
            Enabled(r, step) && Advances(step) && Decides(r, Apply(r, step), opens)
  {
    NextStepIsEnabled(r, opens, 0);
    NextStepFollowsOpens(r, opens, 0);
    var step := NextStep(r, opens, 0).value;
    if r.main == Racing {
      if step.MainReceives? { ReceiveKeeps(r, opens); } else { WorkerKeeps(r, step, opens); }
    }
  }

  lemma DecidesTwice(r: Race, p: Race, q: Race, opens: nat -> bool)
    requires Decides(r, p, opens) && Decides(p, q, opens) && q.main != Racing
    ensures Decides(r, q, opens)
  {
  }

  lemma {:induction false} SettlesWell(r: Race, opens: nat -> bool) returns (steps: seq<Step>, q: Race)
    requires Inv(r) && Patient(r) && !r.ctxCancelled
    ensures Reaches(r, steps, q) && forall step <- steps :: Advances(step)
    ensures Inv(q) && q.main != Racing && q.draining == 0 && Decides(r, q, opens)
    decreases Effort(r)
  {
    NextStepIsEnabled(r, opens, 0);
    var next := NextStep(r, opens, 0);
    if next == None {
      steps, q := [], r;
    } else {
      var p := Apply(r, next.value);
      NextStepDecides(r, opens);
      EffortFalls(r, next.value);
      StepInv(r, next.value);
      StepPatient(r, next.value);
      var rest;
      rest, q := SettlesWell(p, opens);
      DecidesTwice(r, p, q, opens);
      steps := [next.value] + rest;
      assert steps[1..] == rest;
    }
  }

  /** From every reachable race that nobody cancelled, if the dials turn out as `opens` says and no timer fires, the
      call returns an open connection exactly if one is open already or `opens` holds of an attempt under way or of
      an address not tried yet. */
  lemma OpeningWins(r: Race, opens: nat -> bool) returns (steps: seq<Step>, q: Race)
    requires Reachable(r) && r.main == Racing && !r.ctxCancelled
    ensures Reaches(r, steps, q) && forall step <- steps :: Advances(step)
    ensures q.main != Racing && q.draining == 0 && (q.main.Won? <==> Hope(r, opens))
    ensures q.dialled == q.closed + Returned(q.main)
  {
    ReachablePatient(r);
    steps, q := SettlesWell(r, opens);
    AccountedFor(q);
  }

  // ---- what starts the next attempt ----

  /** The fallback timer starts the next address beside the first. */
  lemma TimerStartsNext(r: Race)
    requires Reachable(r) && Enabled(r, MainTimer)
    ensures var q := Apply(r, MainTimer);
      && q.attempts == r.attempts + [Dialing] && q.next == r.next + 1 && q.inFlight == SLOTS
      && q.main == Racing && !q.timer
  {
    ReachablePatient(r);
  }

  /** A failed attempt is replaced at once while addresses are left. */
  lemma FaultStartsNext(r: Race)
    requires Reachable(r) && Enabled(r, MainReceives) && r.results[0] == Fault && r.next < r.total
    ensures var q := Apply(r, MainReceives);
      q.attempts == r.attempts + [Dialing] && q.next == r.next + 1 && q.inFlight == r.inFlight && q.main == Racing
  {
    ReachablePatient(r);
  }

  /** The first connection to arrive is the one returned, and the other attempt is cancelled. */
  lemma ConnectionIsReturned(r: Race)
    requires Reachable(r) && Enabled(r, MainReceives) && r.results[0].Conn? && !r.ctxCancelled
    ensures var q := Apply(r, MainReceives);
      && q.main == Won(r.results[0].index) && q.dialCancelled && q.closed == r.closed
      && r.dialled[r.results[0].index] == 1 && r.closed == multiset{}
  {
    ReachablePatient(r);
    TakeOwned(r);
    assert r.results[0].index in r.dialled;
  }
}
