/**
 * The two-slot Happy Eyeballs race of dialApproved in internal/security/dialer.go, as a step system:
 * the select loop, the dial goroutines, the drain goroutine and the caller's context interleave freely.
 * A connection is named by the index of the address it was dialled for.
 */
module DialRace {
  import opened Basics

  /** Where the goroutine of one started address is. */
  datatype Attempt =
    | Dialing     // before or inside DialContext
    | Opened      // DialContext returned a connection, dialCtx not yet checked
    | Approved    // about to send the connection
    | Failing     // about to send an error; any connection is closed
    | Delivered   // its one result is sent

  datatype Item = Conn(index: nat) | Fault

  datatype Main = Racing | Won(index: nat) | Cancelled | Exhausted

  datatype Race = Race(
    total: nat, next: nat, inFlight: nat, timer: bool,
    attempts: seq<Attempt>, results: seq<Item>,
    main: Main, draining: nat, ctxCancelled: bool, dialCancelled: bool,
    faults: nat, dialled: multiset<nat>, closed: multiset<nat>)

  const SLOTS: nat := 2

  function StartNext(r: Race): Race {
    r.(next := r.next + 1, inFlight := r.inFlight + 1, attempts := r.attempts + [Dialing])
  }

  function ArmTimer(r: Race): Race {
    if r.inFlight == 1 && r.next < r.total && !r.timer then r.(timer := true) else r
  }

  /** The caller has at least one approved address and a live context. */
  function Init(total: nat): Race
    requires total > 0
  {
    ArmTimer(StartNext(Race(total, 0, 0, false, [], [], Racing, 0, false, false, 0, multiset{}, multiset{})))
  }

  /** Leaving the loop early: cancel the other attempt and drain its result in the background. */
  function Leave(r: Race, how: Main): Race {
    r.(main := how, dialCancelled := true, timer := false, draining := r.inFlight)
  }

  function ReceiveConn(r: Race, i: nat): Race {
    if r.ctxCancelled then Leave(r.(closed := r.closed + multiset{i}), Cancelled) else Leave(r, Won(i))
  }

  function NoteFault(r: Race): Race { r.(faults := r.faults + 1, timer := false) }

  function StartAnother(r: Race): Race { if r.next < r.total then StartNext(r) else r }

  /** The loop ends when nothing is in flight. */
  function EndIfIdle(r: Race): Race { if r.inFlight > 0 then r else r.(main := Exhausted, dialCancelled := true) }

  function ReceiveFault(r: Race): Race { EndIfIdle(ArmTimer(StartAnother(NoteFault(r)))) }

  /** A worker sends its one result. */
  function Send(r: Race, w: nat): Race
    requires w < |r.attempts|
  {
    r.(attempts := r.attempts[w := Delivered],
       results := r.results + [if r.attempts[w] == Approved then Conn(w) else Fault])
  }

  function TakeFirst(r: Race): Race
    requires r.results != [] && r.inFlight > 0
  {
    r.(results := r.results[1..], inFlight := r.inFlight - 1)
  }

  function Receive(r: Race): Race
    requires r.results != [] && r.inFlight > 0
  {
    match r.results[0] case Conn(i) => ReceiveConn(TakeFirst(r), i) case Fault => ReceiveFault(TakeFirst(r))
  }

  datatype Step =
    | WorkerFails(worker: nat)     // the early context check or DialContext reports an error
    | WorkerOpens(worker: nat)
    | WorkerChecks(worker: nat)    // dialCtx.Err() after a successful dial
    | WorkerSends(worker: nat)
    | MainReceives
    | MainTimer
    | MainSeesCancel
    | DrainReceives
    | CallerCancels

  predicate Enabled(r: Race, step: Step) {
    match step
    case WorkerFails(w) => w < |r.attempts| && r.attempts[w] == Dialing
    case WorkerOpens(w) => w < |r.attempts| && r.attempts[w] == Dialing
    case WorkerChecks(w) => w < |r.attempts| && r.attempts[w] == Opened
    case WorkerSends(w) => w < |r.attempts| && r.attempts[w] in {Approved, Failing}
    case MainReceives => r.main == Racing && r.results != [] && r.inFlight > 0
    case MainTimer => r.main == Racing && r.timer
    case MainSeesCancel => r.main == Racing && r.ctxCancelled
    case DrainReceives => r.main != Racing && r.draining > 0 && r.results != []
    case CallerCancels => true
  }

  function Apply(r: Race, step: Step): Race
    requires Enabled(r, step)
  {
    match step
    case WorkerFails(w) => r.(attempts := r.attempts[w := Failing])
    case WorkerOpens(w) => r.(attempts := r.attempts[w := Opened], dialled := r.dialled + multiset{w})
    case WorkerChecks(w) =>
      if r.dialCancelled then r.(attempts := r.attempts[w := Failing], closed := r.closed + multiset{w})
      else r.(attempts := r.attempts[w := Approved])
    case WorkerSends(w) => Send(r, w)
    case MainReceives => Receive(r)
    case MainTimer =>
      var q := r.(timer := false);
      ArmTimer(if q.next < q.total && q.inFlight < SLOTS then StartNext(q) else q)
    case MainSeesCancel => Leave(r, Cancelled)
    case DrainReceives =>
      var q := r.(results := r.results[1..], draining := r.draining - 1);
      (match r.results[0] case Conn(i) => q.(closed := q.closed + multiset{i}) case Fault => q)
    case CallerCancels => r.(ctxCancelled := true, dialCancelled := true)
  }

  ghost predicate Reaches(from: Race, steps: seq<Step>, r: Race)
    decreases |steps|
  {
    if steps == [] then r == from
    else Enabled(from, steps[0]) && Reaches(Apply(from, steps[0]), steps[1..], r)
  }

  /** What becomes of a race in which these steps are wished for, in order; one that cannot happen is passed over. */
  function Driven(r: Race, wishes: seq<Step>): Race {
    if wishes == [] then r
    else
      var q, step := Driven(r, wishes[..|wishes| - 1]), wishes[|wishes| - 1];
      if Enabled(q, step) then Apply(q, step) else q
  }

  // ---- who holds what ----

  function Holding(a: Attempt, i: nat): multiset<nat> {
    if a in {Opened, Approved} then multiset{i} else multiset{}
  }

  /** Connections in the hands of dial goroutines. */
  function Held(attempts: seq<Attempt>): multiset<nat> {
    if attempts == [] then multiset{}
    else Held(attempts[..|attempts| - 1]) + Holding(attempts[|attempts| - 1], |attempts| - 1)
  }

  function Carried(item: Item): multiset<nat> {
    match item case Conn(i) => multiset{i} case Fault => multiset{}
  }

  /** Connections in the results channel. */
  function Queued(results: seq<Item>): multiset<nat> {
    if results == [] then multiset{} else Carried(results[0]) + Queued(results[1..])
  }

  function Live(a: Attempt): nat { if a == Delivered then 0 else 1 }

  /** Goroutines that have yet to send. */
  function Outstanding(attempts: seq<Attempt>): nat {
    if attempts == [] then 0
    else Outstanding(attempts[..|attempts| - 1]) + Live(attempts[|attempts| - 1])
  }

  function Returned(main: Main): multiset<nat> {
    match main case Won(i) => multiset{i} case _ => multiset{}
  }

  // ---- the invariant ----

  ghost predicate Counted(r: Race) {
    && |r.attempts| == r.next && 1 <= r.next <= r.total
    && Outstanding(r.attempts) + |r.results| == (if r.main == Racing then r.inFlight else r.draining) <= SLOTS
  }

  ghost predicate Owned(r: Race) {
    r.dialled == Held(r.attempts) + Queued(r.results) + r.closed + Returned(r.main)
  }

  ghost predicate Progressing(r: Race) {
    && (r.main == Racing ==>
          && r.draining == 0 && r.inFlight > 0 && r.faults + r.inFlight == r.next
          && (r.timer <==> r.inFlight == 1 && r.next < r.total))
    && (r.main == Exhausted ==> r.faults == r.next == r.total && r.draining == 0)
    && (r.main != Racing ==> r.dialCancelled)
    && (r.main == Cancelled ==> r.ctxCancelled)
  }

  /** Each address is opened at most once. */
  ghost predicate Once(r: Race) {
    forall i :: r.dialled[i] <= 1 && (r.dialled[i] == 1 ==> i < |r.attempts| && r.attempts[i] != Dialing)
  }

  ghost predicate Inv(r: Race) { Counted(r) && Owned(r) && Progressing(r) && Once(r) }

  // ---- bag lemmas ----

  lemma {:induction false} HeldContains(s: seq<Attempt>, i: nat)
    requires i < |s|
    ensures Holding(s[i], i) <= Held(s)
  {
    if i == |s| - 1 {
    } else {
      HeldContains(s[..|s| - 1], i);
    }
  }

  lemma {:induction false} HeldExchange(s: seq<Attempt>, i: nat, a: Attempt)
    requires i < |s|
    ensures Held(s[i := a]) + Holding(s[i], i) == Held(s) + Holding(a, i)
    ensures Outstanding(s[i := a]) == Outstanding(s) - Live(s[i]) + Live(a)
  {
    var n := |s| - 1;
    if i == n {
      assert s[i := a][..n] == s[..n];
    } else {
      HeldExchange(s[..n], i, a);
      var next := s[..n][i := a];
      assert s[i := a][..n] == next;
      Under(Holding(s[n], n), Held(next), Holding(s[i], i), Held(s[..n]), Holding(a, i));
    }
  }

  lemma HeldUpdate(s: seq<Attempt>, i: nat, a: Attempt)
    requires i < |s|
    ensures Holding(s[i], i) <= Held(s)
    ensures Held(s[i := a]) == Held(s) - Holding(s[i], i) + Holding(a, i)
    ensures Outstanding(s[i := a]) == Outstanding(s) - Live(s[i]) + Live(a)
  {
    HeldContains(s, i);
    HeldExchange(s, i, a);
    Solve(Held(s[i := a]), Holding(s[i], i), Held(s), Holding(a, i));
  }

  lemma Solve(next: multiset<nat>, was: multiset<nat>, held: multiset<nat>, now: multiset<nat>)
    requires next + was == held + now && was <= held
    ensures next == held - was + now
  {
    forall x ensures next[x] == (held - was + now)[x] { assert (next + was)[x] == (held + now)[x]; }
  }

  lemma Under(h: multiset<nat>, next: multiset<nat>, was: multiset<nat>, held: multiset<nat>, now: multiset<nat>)
    requires next + was == held + now
    ensures (next + h) + was == (held + h) + now
  {
    forall x ensures ((next + h) + was)[x] == ((held + h) + now)[x] { assert (next + was)[x] == (held + now)[x]; }
  }

  lemma HeldAppend(s: seq<Attempt>)
    ensures Held(s + [Dialing]) == Held(s)
  {
    assert (s + [Dialing])[..|s|] == s;
  }

  lemma {:induction false} QueuedAppend(results: seq<Item>, item: Item)
    ensures Queued(results + [item]) == Queued(results) + Carried(item)
  {
    if results == [] {
      assert [] + [item] == [item];
    } else {
      QueuedAppend(results[1..], item);
      assert (results + [item])[1..] == results[1..] + [item];
    }
  }

  lemma {:induction false} OutstandingZero(s: seq<Attempt>)
    requires Outstanding(s) == 0
    ensures Held(s) == multiset{}
  {
    if s == [] {
    } else {
      OutstandingZero(s[..|s| - 1]);
    }
  }

  // ---- ownership: each step moves a connection from one hand to the next ----

  lemma Sum4(h: multiset<nat>, q: multiset<nat>, c: multiset<nat>, w: multiset<nat>, x: multiset<nat>)
    ensures (h + x) + q + c + w == (h + q + c + w) + x
    ensures h + (q + x) + c + w == (h + q + c + w) + x
    ensures h + q + (c + x) + w == (h + q + c + w) + x
    ensures h + q + c + (w + x) == (h + q + c + w) + x
  {
  }

  lemma Exchange(h: multiset<nat>, x: multiset<nat>)
    requires x <= h
    ensures (h - x) + x == h && h - multiset{} == h && h + multiset{} == h
  {
  }

  lemma OpensOwned(r: Race, w: nat)
    requires Owned(r) && Enabled(r, WorkerOpens(w))
    ensures Owned(Apply(r, WorkerOpens(w)))
  {
    HeldUpdate(r.attempts, w, Opened);
    Sum4(Held(r.attempts), Queued(r.results), r.closed, Returned(r.main), multiset{w});
    Exchange(Held(r.attempts), multiset{});
  }

  lemma FailsOwned(r: Race, w: nat)
    requires Owned(r) && Enabled(r, WorkerFails(w))
    ensures Owned(Apply(r, WorkerFails(w)))
  {
    HeldUpdate(r.attempts, w, Failing);
    Exchange(Held(r.attempts), multiset{});
  }

  lemma ChecksOwned(r: Race, w: nat)
    requires Owned(r) && Enabled(r, WorkerChecks(w))
    ensures Owned(Apply(r, WorkerChecks(w)))
  {
    var q := Apply(r, WorkerChecks(w));
    HeldUpdate(r.attempts, w, q.attempts[w]);
    Exchange(Held(r.attempts), multiset{w});
    if r.dialCancelled {
      var rest := Held(r.attempts) - multiset{w};
      Exchange(rest, multiset{});
      Sum4(rest, Queued(r.results), r.closed, Returned(r.main), multiset{w});
    }
  }

  lemma Handover(d: multiset<nat>, h: multiset<nat>, q: multiset<nat>, c: multiset<nat>, w: multiset<nat>,
                 x: multiset<nat>)
    requires d == h + q + c + w && x <= h
    ensures d == (h - x + multiset{}) + (q + x) + c + w
  {
    Exchange(h, x);
    Sum4(h - x, q, c, w, x);
  }

  lemma SendsOwned(r: Race, w: nat)
    requires Owned(r) && w < |r.attempts| && r.attempts[w] in {Approved, Failing}
    ensures Owned(Send(r, w))
  {
    var item := if r.attempts[w] == Approved then Conn(w) else Fault;
    HeldUpdate(r.attempts, w, Delivered);
    QueuedAppend(r.results, item);
    Handover(r.dialled, Held(r.attempts), Queued(r.results), r.closed, Returned(r.main), Holding(r.attempts[w], w));
  }

  /** Taking the first result out of the channel and closing or returning what it carries. */
  lemma TakeOwned(r: Race)
    requires Owned(r) && r.results != []
    ensures r.dialled ==
            Held(r.attempts) + Queued(r.results[1..]) + (r.closed + Carried(r.results[0])) + Returned(r.main)
    ensures r.main == Racing ==>
      r.dialled == Held(r.attempts) + Queued(r.results[1..]) + r.closed + Carried(r.results[0])
  {
    var x, q := Carried(r.results[0]), Queued(r.results[1..]);
    assert Queued(r.results) == q + x;
    Sum4(Held(r.attempts), q, r.closed, Returned(r.main), x);
    Exchange(multiset{}, multiset{});
    assert multiset{} + x == x;
  }

  lemma FaultKeepsHands(r: Race)
    ensures var q := ReceiveFault(r);
      && q.dialled == r.dialled && Held(q.attempts) == Held(r.attempts)
      && q.results == r.results && q.closed == r.closed
      && (r.main == Racing ==> Returned(q.main) == multiset{})
  {
    HeldAppend(r.attempts);
  }

  lemma ConnOwned(q: Race, i: nat)
    requires q.dialled == Held(q.attempts) + Queued(q.results) + (q.closed + multiset{i}) + multiset{}
    requires q.dialled == Held(q.attempts) + Queued(q.results) + q.closed + multiset{i}
    ensures Owned(ReceiveConn(q, i))
  {
  }

  lemma FaultOwned(q: Race)
    requires Owned(q) && q.main == Racing
    ensures Owned(ReceiveFault(q))
  {
    FaultKeepsHands(q);
  }

  lemma ReceiveOwned(r: Race)
    requires Owned(r) && r.main == Racing && r.results != [] && r.inFlight > 0
    ensures Owned(Receive(r))
  {
    var q := TakeFirst(r);
    TakeOwned(r);
    match r.results[0]
    case Conn(i) => ConnOwned(q, i);
    case Fault =>
      Exchange(r.closed, multiset{});
      FaultOwned(q);
  }

  lemma DrainOwned(r: Race)
    requires Owned(r) && Enabled(r, DrainReceives)
    ensures Owned(Apply(r, DrainReceives))
  {
    TakeOwned(r);
    Exchange(r.closed, multiset{});
  }

  lemma TimerOwned(r: Race)
    requires Owned(r) && Enabled(r, MainTimer)
    ensures Owned(Apply(r, MainTimer))
  {
    TimerKeepsHands(r);
    SameHandsOwned(r, Apply(r, MainTimer));
  }

  lemma TimerKeepsHands(r: Race)
    requires Enabled(r, MainTimer)
    ensures var q := Apply(r, MainTimer);
      && q.dialled == r.dialled && Held(q.attempts) == Held(r.attempts)
      && q.results == r.results && q.closed == r.closed && q.main == r.main
  {
    var q := Apply(r, MainTimer);
    if r.next < r.total && r.inFlight < SLOTS {
      assert q.attempts == r.attempts + [Dialing];
      HeldAppend(r.attempts);
    } else {
      assert q.attempts == r.attempts;
    }
  }

  /** What starts an attempt, leaves without a connection or cancels moves no connection. */
  lemma SameHandsOwned(r: Race, q: Race)
    requires Owned(r) && q.dialled == r.dialled && Held(q.attempts) == Held(r.attempts) && q.results == r.results
    requires q.closed == r.closed && Returned(q.main) == Returned(r.main)
    ensures Owned(q)
  {
  }

  lemma StepOwned(r: Race, step: Step)
    requires Owned(r) && Enabled(r, step)
    ensures Owned(Apply(r, step))
  {
    match step
    case WorkerFails(w) => FailsOwned(r, w);
    case WorkerOpens(w) => OpensOwned(r, w);
    case WorkerChecks(w) => ChecksOwned(r, w);
    case WorkerSends(w) => SendsOwned(r, w);
    case MainReceives => ReceiveOwned(r);
    case MainTimer => TimerOwned(r);
    case MainSeesCancel => SameHandsOwned(r, Apply(r, step));
    case DrainReceives => DrainOwned(r);
    case CallerCancels => SameHandsOwned(r, Apply(r, step));
  }

  // ---- counting, progress, and opening once ----

  lemma WorkerCounted(r: Race, step: Step)
    requires Counted(r) && Progressing(r) && Enabled(r, step)
    requires step.WorkerFails? || step.WorkerOpens? || step.WorkerChecks? || step.WorkerSends?
    ensures Counted(Apply(r, step)) && Progressing(Apply(r, step))
  {
    HeldUpdate(r.attempts, step.worker, Apply(r, step).attempts[step.worker]);
  }

  /** The count after a result has been taken out and before it is acted on. */
  ghost predicate Taken(q: Race) {
    && q.main == Racing && q.draining == 0 && |q.attempts| == q.next && 1 <= q.next <= q.total
    && Outstanding(q.attempts) + |q.results| == q.inFlight < SLOTS && q.faults + q.inFlight + 1 == q.next
  }

  lemma OutstandingAppend(s: seq<Attempt>)
    ensures Outstanding(s + [Dialing]) == Outstanding(s) + 1
  {
    assert (s + [Dialing])[..|s|] == s;
  }

  lemma FaultCounted(q: Race)
    requires Taken(q)
    ensures Counted(ReceiveFault(q)) && Progressing(ReceiveFault(q))
  {
    if q.next < q.total { OutstandingAppend(q.attempts); }
  }

  lemma ConnCounted(q: Race, i: nat)
    requires Taken(q)
    ensures Counted(ReceiveConn(q, i)) && Progressing(ReceiveConn(q, i))
  {
  }

  lemma TakeCounted(r: Race)
    requires Counted(r) && Progressing(r) && r.main == Racing && r.results != [] && r.inFlight > 0
    ensures Taken(TakeFirst(r))
  {
  }

  lemma ReceiveCounted(r: Race)
    requires r.results != [] && r.inFlight > 0 && Taken(TakeFirst(r))
    ensures Counted(Receive(r)) && Progressing(Receive(r))
  {
    match r.results[0]
    case Conn(i) => ConnCounted(TakeFirst(r), i);
    case Fault => FaultCounted(TakeFirst(r));
  }

  lemma TimerCounted(r: Race)
    requires Counted(r) && Progressing(r) && Enabled(r, MainTimer)
    ensures Counted(Apply(r, MainTimer)) && Progressing(Apply(r, MainTimer))
  {
    OutstandingAppend(r.attempts);
  }

  lemma StepCounted(r: Race, step: Step)
    requires Counted(r) && Progressing(r) && Enabled(r, step)
    ensures Counted(Apply(r, step)) && Progressing(Apply(r, step))
  {
    match step
    case MainReceives => TakeCounted(r); ReceiveCounted(r);
    case MainTimer => TimerCounted(r);
    case MainSeesCancel =>
    case DrainReceives =>
    case CallerCancels =>
    case _ => WorkerCounted(r, step);
  }

  /** Only `who` opens a connection, for the first time, and no goroutine goes back to dialling. */
  ghost predicate Follows(r: Race, q: Race, who: Option<nat>) {
    && |r.attempts| <= |q.attempts|
    && (forall i :: 0 <= i < |r.attempts| && r.attempts[i] != Dialing ==> q.attempts[i] != Dialing)
    && (match who
        case None => q.dialled == r.dialled
        case Some(w) =>
          && w < |r.attempts| && r.attempts[w] == Dialing && q.attempts[w] == Opened
          && q.dialled == r.dialled + multiset{w})
  }

  lemma WorkerFollows(r: Race, step: Step)
    requires Enabled(r, step)
    requires step.WorkerFails? || step.WorkerOpens? || step.WorkerChecks? || step.WorkerSends?
    ensures Follows(r, Apply(r, step), if step.WorkerOpens? then Some(step.worker) else None)
  {
  }

  lemma ReceiveFollows(r: Race)
    requires r.results != [] && r.inFlight > 0
    ensures Follows(r, Receive(r), None)
  {
    match r.results[0]
    case Conn(i) =>
    case Fault => FaultFollows(TakeFirst(r));
  }

  lemma FaultFollows(r: Race)
    ensures Follows(r, ReceiveFault(r), None)
  {
  }

  lemma OnceAfter(r: Race, q: Race, who: Option<nat>)
    requires Once(r) && Follows(r, q, who)
    ensures Once(q)
  {
    forall i ensures q.dialled[i] <= 1 && (q.dialled[i] == 1 ==> i < |q.attempts| && q.attempts[i] != Dialing) {
      assert r.dialled[i] <= 1 && (r.dialled[i] == 1 ==> i < |r.attempts| && r.attempts[i] != Dialing);
    }
  }

  lemma StepOnce(r: Race, step: Step)
    requires Once(r) && Enabled(r, step)
    ensures Once(Apply(r, step))
  {
    match step
    case MainReceives => ReceiveFollows(r); OnceAfter(r, Receive(r), None);
    case MainTimer => OnceAfter(r, Apply(r, step), None);
    case MainSeesCancel =>
    case DrainReceives =>
    case CallerCancels =>
    case _ =>
      WorkerFollows(r, step);
      OnceAfter(r, Apply(r, step), if step.WorkerOpens? then Some(step.worker) else None);
  }

  lemma StepInv(r: Race, step: Step)
    requires Inv(r) && Enabled(r, step)
    ensures Inv(Apply(r, step))
  {
    StepCounted(r, step);
    StepOwned(r, step);
    StepOnce(r, step);
  }

  lemma {:induction false} RunInv(from: Race, steps: seq<Step>, r: Race)
    requires Inv(from) && Reaches(from, steps, r)
    ensures Inv(r)
    decreases |steps|
  {
    if steps == [] {
    } else {
      StepInv(from, steps[0]);
      RunInv(Apply(from, steps[0]), steps[1..], r);
    }
  }

  ghost predicate Reachable(r: Race) {
    exists total: nat, steps: seq<Step> :: total > 0 && Reaches(Init(total), steps, r)
  }

  lemma InitInv(total: nat)
    requires total > 0
    ensures Inv(Init(total))
  {
    HeldAppend([]);
    OutstandingAppend([]);
    assert [] + [Dialing] == [Dialing];
  }

  lemma ReachableInv(r: Race)
    requires Reachable(r)
    ensures Inv(r)
  {
    var total: nat, steps :| total > 0 && Reaches(Init(total), steps, r);
    InitInv(total);
    RunInv(Init(total), steps, r);
  }

  lemma {:induction false} ReachesOneMore(from: Race, steps: seq<Step>, r: Race, step: Step)
    requires Reaches(from, steps, r) && Enabled(r, step)
    ensures Reaches(from, steps + [step], Apply(r, step))
    decreases |steps|
  {
    if steps == [] {
      assert [step][1..] == [];
    } else {
      ReachesOneMore(Apply(from, steps[0]), steps[1..], r, step);
      assert (steps + [step])[1..] == steps[1..] + [step];
    }
  }

  lemma ReachableOneMore(r: Race, step: Step)
    requires Reachable(r) && Enabled(r, step)
    ensures Reachable(Apply(r, step))
  {
    var total: nat, steps :| total > 0 && Reaches(Init(total), steps, r);
    ReachesOneMore(Init(total), steps, r, step);
  }

  lemma {:induction false} DrivenIsReachable(r: Race, wishes: seq<Step>)
    requires Reachable(r)
    ensures Reachable(Driven(r, wishes))
  {
    if wishes == [] {
    } else {
      var q, step := Driven(r, wishes[..|wishes| - 1]), wishes[|wishes| - 1];
      DrivenIsReachable(r, wishes[..|wishes| - 1]);
      if Enabled(q, step) { ReachableOneMore(q, step); }
    }
  }

  lemma InitIsReachable(total: nat)
    requires total > 0
    ensures Reachable(Init(total))
  {
    assert Reaches(Init(total), [], Init(total));
  }

  // ---- what it means ----

  /** At most two attempts are live, so no worker ever blocks on the two-entry results channel. */
  lemma AtMostTwoAndNeverBlocked(r: Race)
    requires Reachable(r)
    ensures Outstanding(r.attempts) <= SLOTS
    ensures forall w :: 0 <= w < |r.attempts| && r.attempts[w] != Delivered ==> |r.results| < SLOTS
  {
    ReachableInv(r);
    forall w | 0 <= w < |r.attempts| && r.attempts[w] != Delivered ensures |r.results| < SLOTS {
      HeldUpdate(r.attempts, w, Delivered);
    }
  }

  /** Addresses are started in order and at most once. */
  lemma StartedInOrder(r: Race)
    requires Reachable(r)
    ensures |r.attempts| == r.next <= r.total && forall i :: r.dialled[i] <= 1
  {
    ReachableInv(r);
  }

  /** While racing with addresses left, the second slot is busy or the fallback timer is running. */
  lemma NeverStalls(r: Race)
    requires Reachable(r) && r.main == Racing
    ensures r.inFlight > 0 && (r.next < r.total ==> r.inFlight == SLOTS || r.timer)
  {
    ReachableInv(r);
  }

  lemma AccountedFor(r: Race)
    requires Inv(r) && r.main != Racing && r.draining == 0
    ensures r.dialled == r.closed + Returned(r.main)
  {
    OutstandingZero(r.attempts);
    assert r.results == [];
  }

  /** Once the caller has returned and the drain is done, every connection is the returned one or closed once. */
  lemma EveryConnectionAccountedFor(r: Race)
    requires Reachable(r) && r.main != Racing && r.draining == 0
    ensures r.dialled == r.closed + Returned(r.main)
    ensures forall i :: r.closed[i] <= 1 && (r.main == Won(i) ==> r.closed[i] == 0 && r.dialled[i] == 1)
  {
    ReachableInv(r);
    AccountedFor(r);
    forall i ensures r.closed[i] + Returned(r.main)[i] == r.dialled[i] {
      assert (r.closed + Returned(r.main))[i] == r.dialled[i];
    }
  }

  /** A failure that is not a cancellation has tried every address. */
  lemma FailureMeansAllTried(r: Race)
    requires Reachable(r) && r.main == Exhausted
    ensures r.next == r.total && r.faults == r.total && Outstanding(r.attempts) == 0
  {
    ReachableInv(r);
  }

  // ---- nothing is left hanging ----

  function Stage(a: Attempt): nat {
    match a
    case Dialing => 4
    case Opened => 3
    case Approved => 2
    case Failing => 2
    case Delivered => 0
  }

  function Stages(attempts: seq<Attempt>): nat {
    if attempts == [] then 0 else Stages(attempts[..|attempts| - 1]) + Stage(attempts[|attempts| - 1])
  }

  lemma {:induction false} StagesUpdate(s: seq<Attempt>, w: nat, a: Attempt)
    requires w < |s|
    ensures Stages(s[w := a]) == Stages(s) - Stage(s[w]) + Stage(a)
  {
    var n := |s| - 1;
    if w == n {
      assert s[w := a][..n] == s[..n];
    } else {
      StagesUpdate(s[..n], w, a);
      assert s[w := a][..n] == s[..n][w := a];
    }
  }

  lemma StagesAppend(s: seq<Attempt>)
    ensures Stages(s + [Dialing]) == Stages(s) + 4
  {
    assert (s + [Dialing])[..|s|] == s;
  }

  /** What is still to be done, were no timer to fire any more. */
  function Effort(r: Race): int { 5 * (r.total - r.next) + Stages(r.attempts) + |r.results| }

  predicate Advances(step: Step) { !step.MainTimer? && !step.MainSeesCancel? && !step.CallerCancels? }

  lemma StartEffort(r: Race)
    ensures Effort(StartAnother(r)) <= Effort(r) && Effort(ArmTimer(r)) == Effort(r)
  {
    StagesAppend(r.attempts);
  }

  lemma FaultEffort(r: Race)
    ensures Effort(ReceiveFault(r)) <= Effort(r)
  {
    var a := NoteFault(r);
    StartEffort(a);
    StartEffort(StartAnother(a));
  }

  lemma ReceiveEffort(r: Race)
    requires r.results != [] && r.inFlight > 0
    ensures Effort(Receive(r)) < Effort(r)
  {
    match r.results[0]
    case Conn(i) =>
    case Fault => FaultEffort(TakeFirst(r));
  }

  lemma WorkerEffort(r: Race, step: Step)
    requires Enabled(r, step)
    requires step.WorkerFails? || step.WorkerOpens? || step.WorkerChecks? || step.WorkerSends?
    ensures Effort(Apply(r, step)) < Effort(r)
  {
    StagesUpdate(r.attempts, step.worker, Apply(r, step).attempts[step.worker]);
  }

  lemma EffortFalls(r: Race, step: Step)
    requires Enabled(r, step) && Advances(step)
    ensures Effort(Apply(r, step)) < Effort(r)
  {
    match step
    case MainReceives => ReceiveEffort(r);
    case DrainReceives =>
    case _ => WorkerEffort(r, step);
  }

  /** What happens next if dials succeed as `opens` says, workers come first and no timer fires. */
  function NextStep(r: Race, opens: nat -> bool, w: nat): Option<Step>
    decreases |r.attempts| - w
  {
    if w >= |r.attempts| then
      if r.results == [] then None else Some(if r.main == Racing then MainReceives else DrainReceives)
    else
      match r.attempts[w]
      case Dialing => Some(if opens(w) then WorkerOpens(w) else WorkerFails(w))
      case Opened => Some(WorkerChecks(w))
      case Approved => Some(WorkerSends(w))
      case Failing => Some(WorkerSends(w))
      case Delivered => NextStep(r, opens, w + 1)
  }

  lemma {:induction false} NextStepIsEnabled(r: Race, opens: nat -> bool, w: nat)
    requires Counted(r) && Progressing(r)
    requires forall i :: 0 <= i < w && i < |r.attempts| ==> r.attempts[i] == Delivered
    ensures var step := NextStep(r, opens, w);
            if step.None? then r.main != Racing && r.draining == 0 && Outstanding(r.attempts) == 0
            else Enabled(r, step.value) && Advances(step.value)
    decreases |r.attempts| - w
  {
    if w >= |r.attempts| {
      AllDelivered(r.attempts);
    } else if r.attempts[w] == Delivered {
      NextStepIsEnabled(r, opens, w + 1);
    }
  }

  lemma {:induction false} AllDelivered(s: seq<Attempt>)
    requires forall i :: 0 <= i < |s| ==> s[i] == Delivered
    ensures Outstanding(s) == 0
  {
    if s == [] {
    } else {
      AllDelivered(s[..|s| - 1]);
    }
  }

  lemma {:induction false} Settles(r: Race, opens: nat -> bool) returns (steps: seq<Step>, q: Race)
    requires Inv(r)
    ensures Reaches(r, steps, q) && Inv(q) && forall step <- steps :: Advances(step)
    ensures q.main != Racing && q.draining == 0 && Outstanding(q.attempts) == 0
    decreases Effort(r)
  {
    NextStepIsEnabled(r, opens, 0);
    var next := NextStep(r, opens, 0);
    if next == None {
      steps, q := [], r;
    } else {
      EffortFalls(r, next.value);
      StepInv(r, next.value);
      var rest, end := Settles(Apply(r, next.value), opens);
      steps, q := [next.value] + rest, end;
      assert steps[1..] == rest;
    }
  }

  /** From every reachable state, however the dials still under way turn out, the call returns without another
      timer or cancellation, the goroutines end, and every connection is the one returned or closed. */
  lemma EverythingSettles(r: Race, opens: nat -> bool) returns (steps: seq<Step>, q: Race)
    requires Reachable(r)
    ensures Reaches(r, steps, q) && forall step <- steps :: Advances(step)
    ensures q.main != Racing && q.draining == 0 && Outstanding(q.attempts) == 0
    ensures q.dialled == q.closed + Returned(q.main)
  {
    ReachableInv(r);
    steps, q := Settles(r, opens);
    AccountedFor(q);
  }
}
