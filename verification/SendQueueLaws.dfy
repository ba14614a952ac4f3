/** What the scheduler does, as against what it never does: whom it admits, and that it gets its work done. */
module SendQueueLaws {
  import opened Basics
  import opened MapSums
  import opened SendQueue
  import opened SendQueueProofs

  // ---- admission ----

  /** There is room for one more packet of this size: in the queue, and for its target. */
  ghost predicate HasRoom(q: Queue, charge: int, a: Bytes) {
    && Sum(q.lanes, LanePackets) < q.maxPackets && Sum(q.lanes, LaneBytes) + charge <= 262144 && charge <= 131072
    && (if a in q.lanes
        then q.lanes[a].packets < q.maxPackets / 2 + q.maxPackets % 2 && q.lanes[a].bytes + charge <= 131072
        else |q.lanes| < q.maxTargets)
  }

  /** A packet is admitted exactly if the queue lives and there is room; it is then the newest one of its target.
      Otherwise nothing changes. */
  lemma AdmissionIsExact(q: Queue, payload: Bytes, a: Bytes)
    requires Reachable(q)
    ensures var p, item := Enqueue(q, payload, a), Item(payload, a, Max(1, |payload| + |a|));
            if !q.cancelled && HasRoom(q, item.charge, a)
            then p.accepted == q.accepted + [item] && Waiting(p.lanes, a) == Waiting(q.lanes, a) + [item]
            else p == q
    ensures Decide(q, payload, a) == Accepted <==> !q.cancelled && HasRoom(q, Max(1, |payload| + |a|), a)
    ensures Decide(q, payload, a) == Closed <==> q.stopped || q.cancelled
    ensures q.stopped ==> q.cancelled
  {
    ReachableInv(q);
  }

  // ---- Stop and errors ----

  /** Stop takes effect at once: nothing waits any more, and only the lanes in a callback remain. */
  lemma StopStops(q: Queue)
    requires Reachable(q)
    ensures var p := Apply(q, DoStop);
            && p.stopped && p.cancelled && p.lanes.Keys == ActiveKeys(q.lanes)
            && (forall a :: Waiting(p.lanes, a) == []) && p.accepted == q.accepted && p.begun == q.begun
            && p.workers == q.workers && p.ready == q.ready && p.errors == q.errors
  {
    ReachableInv(q);
    StepInv(q, DoStop);
    var p := Apply(q, DoStop);
    assert Drained(p.lanes);
  }

  /** A callback that breaks while the context lives stops the queue, and its error is the one reported if it is the
      first to be reported. */
  lemma BreakageIsReported(q: Queue, w: nat, err: int)
    requires Reachable(q) && IsSending(q, w, Calling) && !q.cancelled
    ensures var p := Apply(q, DoReturn(w, Broken(err)));
            && Enabled(p, DoFatal(w))
            && var s := Apply(p, DoFatal(w));
               s.stopped && s.cancelled && s.errors == [err] && IsSending(s, w, Settled)
  {
    ReachableInv(q);
    MarkInv(q, w, Fatal(err));
    var p := Apply(q, DoReturn(w, Broken(err)));
    FatalInv(p, w);
  }

  /** Any other return changes nothing but the worker's own place. */
  lemma OtherReturnsAreQuiet(q: Queue, w: nat, outcome: Outcome)
    requires Reachable(q) && IsSending(q, w, Calling) && (q.cancelled || !outcome.Broken?)
    ensures Apply(q, DoReturn(w, outcome)) ==
            q.(workers := q.workers[w := Sending(q.workers[w].lane, q.workers[w].item, Settled)])
  {
  }

  // ---- the work gets done ----

  function Stage(worker: Worker): nat {
    match worker
    case Idle => 0
    case Holding(_) => 1
    case Sending(_, _, progress) => if progress == Calling then 4 else 3
    case Exited => 0
  }

  function Stages(ws: seq<Worker>): nat { if ws == [] then 0 else Stage(ws[0]) + Stages(ws[1..]) }

  lemma {:induction false} StagesUpdate(ws: seq<Worker>, w: nat, worker: Worker)
    requires w < |ws|
    ensures Stages(ws[w := worker]) == Stages(ws) - Stage(ws[w]) + Stage(worker)
  {
    var us := ws[w := worker];
    if w == 0 {
      assert us[1..] == ws[1..];
    } else {
      StagesUpdate(ws[1..], w - 1, worker);
      assert us[1..] == ws[1..][w - 1 := worker];
    }
  }

  /** What is still to be done for the packets that wait or are being sent. */
  ghost function Effort(q: Queue): int { 5 * Sum(q.lanes, QueuedPackets) + 2 * |q.ready| + Stages(q.workers) }

  /** No worker is about to stop the queue. */
  predicate NoneFatal(ws: seq<Worker>) { forall i :: 0 <= i < |ws| && ws[i].Sending? ==> !ws[i].progress.Fatal? }

  /** What worker `w` does next if its callback succeeds. */
  function NextOf(worker: Worker, w: nat): Step {
    match worker
    case Idle => DoTake(w)
    case Holding(_) => DoBegin(w)
    case Sending(_, _, progress) => if progress == Calling then DoReturn(w, Sent) else DoEnd(w)
    case Exited => DoTake(w)
  }

  predicate Busy(worker: Worker) { worker.Holding? || worker.Sending? }

  ghost predicate Live(q: Queue) { Inv(q) && !q.cancelled && !q.stopped && NoneFatal(q.workers) }

  lemma BusyIsEnabled(q: Queue, w: nat)
    requires Live(q) && w < |q.workers| && Busy(q.workers[w])
    ensures Enabled(q, NextOf(q.workers[w], w))
  {
    assert SenderOk(q.lanes, q.workers[w]);
    if q.workers[w].Holding? { HeldIsInactive(q, w); }
  }

  lemma {:induction false} IdleExists(ws: seq<Worker>) returns (w: nat)
    requires IdleWorkers(ws) > 0
    ensures w < |ws| && ws[w].Idle?
  {
    if ws[0].Idle? {
      w := 0;
    } else {
      var v := IdleExists(ws[1..]);
      w := v + 1;
    }
  }

  /** While a lane exists, some worker can go on. */
  lemma SomeoneCanGoOn(q: Queue) returns (w: nat)
    requires Live(q) && q.lanes != map[]
    ensures w < |q.workers| && Enabled(q, NextOf(q.workers[w], w))
  {
    if v :| 0 <= v < |q.workers| && Busy(q.workers[v]) {
      w := v;
      BusyIsEnabled(q, w);
    } else {
      NoneBusy(q.workers);
      ReadySize(q);
      WorkerCount(q.workers);
      w := IdleExists(q.workers);
    }
  }

  lemma {:induction false} NoneBusy(ws: seq<Worker>)
    requires forall i :: 0 <= i < |ws| ==> !Busy(ws[i])
    ensures Bag(ws, true) == multiset{} && Bag(ws, false) == multiset{}
  {
    if ws == [] {
    } else {
      NoneBusy(ws[1..]);
    }
  }

  lemma QueuedUpdate(lanes: map<Bytes, Lane>, a: Bytes, lane: Lane)
    requires a in lanes
    ensures Sum(lanes[a := lane], QueuedPackets) == Sum(lanes, QueuedPackets) - |lanes[a].queue| + |lane.queue|
  {
    SumUpdate(lanes, a, lane, QueuedPackets);
  }

  lemma TakeEffort(q: Queue, w: nat)
    requires Enabled(q, DoTake(w))
    ensures Effort(TakeReady(q, w)) < Effort(q)
  {
    StagesUpdate(q.workers, w, Holding(q.ready[0]));
  }

  lemma BeginEffort(q: Queue, w: nat)
    requires Enabled(q, DoBegin(w)) && !q.stopped && !q.cancelled
    ensures Effort(Begin(q, w)) < Effort(q)
  {
    var a := q.workers[w].lane.address;
    var p := Begin(q, w);
    StagesUpdate(q.workers, w, p.workers[w]);
    QueuedUpdate(q.lanes, a, p.lanes[a]);
  }

  lemma EndEffort(q: Queue, w: nat)
    requires Enabled(q, DoEnd(w)) && SenderOk(q.lanes, q.workers[w])
    ensures Effort(End(q, w)) < Effort(q)
  {
    var a := q.workers[w].lane.address;
    var p := End(q, w);
    EndShape(q, w);
    StagesUpdate(q.workers, w, Idle);
    if a in p.lanes { QueuedUpdate(q.lanes, a, p.lanes[a]); } else { SumRemove(q.lanes, a, QueuedPackets); }
  }

  /** The queue lives on, nothing is accepted meanwhile, and the end is nearer. */
  ghost predicate Nearer(q: Queue, p: Queue) {
    Live(p) && p.accepted == q.accepted && p.errors == q.errors && Effort(p) < Effort(q)
  }

  lemma TakeGoesOn(q: Queue, w: nat)
    requires Live(q) && Enabled(q, DoTake(w))
    ensures Nearer(q, TakeReady(q, w))
  {
    TakeInv(q, w);
    TakeEffort(q, w);
  }

  lemma BeginGoesOn(q: Queue, w: nat)
    requires Live(q) && Enabled(q, DoBegin(w))
    ensures Nearer(q, Begin(q, w))
  {
    BeginInv(q, w);
    BeginEffort(q, w);
  }

  lemma ReturnGoesOn(q: Queue, w: nat)
    requires Live(q) && IsSending(q, w, Calling)
    ensures Nearer(q, Return(q, w, Sent))
  {
    MarkInv(q, w, Settled);
    StagesUpdate(q.workers, w, q.workers[w].(progress := Settled));
  }

  lemma EndGoesOn(q: Queue, w: nat)
    requires Live(q) && Enabled(q, DoEnd(w))
    ensures Nearer(q, End(q, w))
  {
    EndInv(q, w);
    assert SenderOk(q.lanes, q.workers[w]);
    EndEffort(q, w);
    EndShape(q, w);
  }

  lemma GoOn(q: Queue, w: nat)
    requires Live(q) && w < |q.workers| && Enabled(q, NextOf(q.workers[w], w))
    ensures Nearer(q, Apply(q, NextOf(q.workers[w], w)))
  {
    match q.workers[w]
    case Idle => TakeGoesOn(q, w);
    case Holding(_) => BeginGoesOn(q, w);
    case Sending(_, _, progress) => if progress == Calling { ReturnGoesOn(q, w); } else { EndGoesOn(q, w); }
  }

  lemma EffortIsPositive(q: Queue)
    requires Live(q)
    ensures Effort(q) >= 0
  {
    QueuedNonNegative(q.maxTargetPackets, q.laneSerial, q.lanes);
  }

  lemma {:induction false} Drains(q: Queue) returns (steps: seq<Step>, p: Queue)
    requires Live(q)
    ensures Reaches(q, steps, p) && Live(p) && p.lanes == map[] && p.accepted == q.accepted && p.errors == q.errors
    decreases Effort(q)
  {
    EffortIsPositive(q);
    if q.lanes == map[] {
      steps, p := [], q;
    } else {
      var w := SomeoneCanGoOn(q);
      GoOn(q, w);
      var next := Apply(q, NextOf(q.workers[w], w));
      EffortIsPositive(next);
      var rest;
      rest, p := Drains(next);
      steps := [NextOf(q.workers[w], w)] + rest;
      assert steps[1..] == rest;
    }
  }

  /** From every reachable state of a live queue the workers, if callbacks return without breaking, send every packet
      that was ever accepted, per target in order, and then nothing is left. */
  lemma EverythingIsSent(q: Queue) returns (steps: seq<Step>, p: Queue)
    requires Reachable(q) && !q.cancelled && NoneFatal(q.workers)
    ensures Reaches(q, steps, p) && p.accepted == q.accepted && !p.cancelled && p.errors == q.errors
    ensures forall a :: ForTarget(p.begun, a) == ForTarget(q.accepted, a)
    ensures p.lanes == map[] && p.packets == 0 && p.bytes == 0
  {
    ReachableInv(q);
    steps, p := Drains(q);
    forall a ensures ForTarget(p.begun, a) == ForTarget(q.accepted, a) {
      assert InOrder(p.lanes, p.accepted, p.begun, a);
    }
  }
}
