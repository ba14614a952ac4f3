/** Every step of the packet scheduler keeps its invariant; what that means for whole runs. */
module SendQueueProofs {
  import opened Basics
  import opened MapSums
  import opened SendQueue

  // ---- sums over the lane table ----

  ghost function AfterStop(m: map<Bytes, Lane>): map<Bytes, Lane> {
    map a | a in m && m[a].active :: Discarded(m[a])
  }

  /** Discarding leaves exactly the running callbacks charged. */
  lemma {:induction false} SumAfterStop(m: map<Bytes, Lane>)
    requires forall a <- m :: !m[a].active ==> m[a].packets == |m[a].queue| && m[a].bytes == QueueBytes(m[a].queue)
    ensures Sum(AfterStop(m), LanePackets) == Sum(m, LanePackets) - Sum(m, QueuedPackets)
    ensures Sum(AfterStop(m), LaneBytes) == Sum(m, LaneBytes) - Sum(m, QueuedBytes)
    decreases |m|
  {
    if m == map[] {
    } else {
      var a := Pick(m);
      SumAfterStop(m - {a});
      if m[a].active {
        assert AfterStop(m) - {a} == AfterStop(m - {a});
        SumRemove(AfterStop(m), a, LanePackets);
        SumRemove(AfterStop(m), a, LaneBytes);
      } else {
        assert AfterStop(m) == AfterStop(m - {a});
      }
    }
  }

  // ---- bags of addresses ----

  lemma {:induction false} BagHolds(ws: seq<Worker>, i: nat, sending: bool)
    requires i < |ws|
    ensures Part(ws[i], sending) <= Bag(ws, sending)
  {
    if i == 0 {
    } else {
      BagHolds(ws[1..], i - 1, sending);
    }
  }

  lemma BagSplit(ws: seq<Worker>, sending: bool)
    requires ws != []
    ensures Bag(ws, sending) == Part(ws[0], sending) + Bag(ws[1..], sending)
  {
  }

  lemma {:induction false} BagExchange(ws: seq<Worker>, i: nat, worker: Worker, sending: bool)
    requires i < |ws|
    ensures Bag(ws[i := worker], sending) + Part(ws[i], sending) == Bag(ws, sending) + Part(worker, sending)
  {
    var us := ws[i := worker];
    BagSplit(ws, sending);
    BagSplit(us, sending);
    if i == 0 {
      assert us[1..] == ws[1..];
      Turn(Part(worker, sending), Bag(ws[1..], sending), Part(ws[0], sending));
    } else {
      BagExchange(ws[1..], i - 1, worker, sending);
      assert us[1..] == ws[1..][i - 1 := worker];
      Under(Part(ws[0], sending), Bag(us[1..], sending), Part(ws[i], sending),
            Bag(ws[1..], sending), Part(worker, sending));
    }
  }

  lemma Turn(x: multiset<Bytes>, b: multiset<Bytes>, y: multiset<Bytes>)
    ensures (x + b) + y == (y + b) + x
  {
  }

  lemma BagUpdate(ws: seq<Worker>, i: nat, worker: Worker, sending: bool)
    requires i < |ws|
    ensures Bag(ws, sending) >= Part(ws[i], sending)
    ensures Bag(ws[i := worker], sending) == Bag(ws, sending) - Part(ws[i], sending) + Part(worker, sending)
  {
    BagHolds(ws, i, sending);
    BagExchange(ws, i, worker, sending);
    Solve(Bag(ws[i := worker], sending), Part(ws[i], sending), Bag(ws, sending), Part(worker, sending));
  }

  lemma Solve(next: multiset<Bytes>, was: multiset<Bytes>, bag: multiset<Bytes>, now: multiset<Bytes>)
    requires next + was == bag + now && was <= bag
    ensures next == bag - was + now
  {
    forall x ensures next[x] == (bag - was + now)[x] { assert (next + was)[x] == (bag + now)[x]; }
  }

  lemma Under(h: multiset<Bytes>, next: multiset<Bytes>, was: multiset<Bytes>,
              bag: multiset<Bytes>, now: multiset<Bytes>)
    requires next + was == bag + now
    ensures (h + next) + was == (h + bag) + now
  {
    forall x ensures ((h + next) + was)[x] == ((h + bag) + now)[x] { assert (next + was)[x] == (bag + now)[x]; }
  }

  lemma {:induction false} BagAppendIdle(ws: seq<Worker>, sending: bool)
    ensures Bag(ws + [Idle], sending) == Bag(ws, sending)
  {
    if ws != [] {
      BagAppendIdle(ws[1..], sending);
      assert (ws + [Idle])[1..] == ws[1..] + [Idle];
    } else {
      assert ws + [Idle] == [Idle];
    }
  }

  lemma {:induction false} ReadyBagAppend(ready: seq<LaneRef>, ref: LaneRef)
    ensures ReadyBag(ready + [ref]) == ReadyBag(ready) + multiset{ref.address}
  {
    if ready != [] {
      ReadyBagAppend(ready[1..], ref);
      assert (ready + [ref])[1..] == ready[1..] + [ref];
    } else {
      assert ready + [ref] == [ref];
    }
  }

  lemma {:induction false} ReadyBagSize(ready: seq<LaneRef>)
    ensures |ReadyBag(ready)| == |ready|
  {
    if ready == [] {
    } else {
      ReadyBagSize(ready[1..]);
    }
  }

  lemma {:induction false} WorkerCount(ws: seq<Worker>)
    requires forall i :: 0 <= i < |ws| ==> !ws[i].Exited?
    ensures IdleWorkers(ws) + |Bag(ws, false)| + |Bag(ws, true)| == |ws|
  {
    if ws == [] {
    } else {
      WorkerCount(ws[1..]);
    }
  }

  lemma {:induction false} BagMember(ws: seq<Worker>, a: Bytes, sending: bool) returns (i: nat)
    requires a in Bag(ws, sending)
    ensures i < |ws| && (if sending then ws[i].Sending? else ws[i].Holding?) && ws[i].lane.address == a
  {
    if a in Part(ws[0], sending) {
      i := 0;
    } else {
      var j := BagMember(ws[1..], a, sending);
      i := j + 1;
    }
  }

  lemma {:induction false} ReadyMember(ready: seq<LaneRef>, a: Bytes) returns (i: nat)
    requires a in ReadyBag(ready)
    ensures i < |ready| && ready[i].address == a
  {
    if ready[0].address == a {
      i := 0;
    } else {
      var j := ReadyMember(ready[1..], a);
      i := j + 1;
    }
  }

  lemma {:induction false} BagCountsBoth(ws: seq<Worker>, i: nat, j: nat)
    requires i < j < |ws| && ws[i].Sending? && ws[j].Sending? && ws[i].lane.address == ws[j].lane.address
    ensures Bag(ws, true)[ws[i].lane.address] >= 2
  {
    if i == 0 {
      BagUpdate(ws[1..], j - 1, Idle, true);
    } else {
      BagCountsBoth(ws[1..], i - 1, j - 1);
    }
  }

  /** A new inactive key enters the table together with its entry in the bag `r`. */
  lemma InactiveGrows(keys: set<Bytes>, active: set<Bytes>, r: multiset<Bytes>, h: multiset<Bytes>, a: Bytes)
    requires r + h == multiset(keys - active) && a !in keys && active <= keys
    ensures (r + multiset{a}) + h == multiset((keys + {a}) - active)
  {
    assert (keys + {a}) - active == (keys - active) + {a};
    assert (r + multiset{a}) + h == (r + h) + multiset{a};
  }

  /** An inactive key held in the bag `h` becomes active. */
  lemma InactiveShrinks(keys: set<Bytes>, active: set<Bytes>, r: multiset<Bytes>, h: multiset<Bytes>, a: Bytes)
    requires r + h == multiset(keys - active) && a in keys - active && multiset{a} <= h
    ensures r + (h - multiset{a}) == multiset(keys - (active + {a}))
  {
    assert keys - (active + {a}) == (keys - active) - {a};
    assert r + (h - multiset{a}) == (r + h) - multiset{a};
  }

  lemma ActiveGrows(active: set<Bytes>, s: multiset<Bytes>, a: Bytes)
    requires s == multiset(active) && a !in active
    ensures s + multiset{a} == multiset(active + {a})
  {
  }

  lemma ActiveShrinks(active: set<Bytes>, s: multiset<Bytes>, a: Bytes)
    requires s == multiset(active) && a in active
    ensures s - multiset{a} == multiset(active - {a})
  {
  }

  lemma Shift(x: multiset<Bytes>, r: multiset<Bytes>, h: multiset<Bytes>)
    ensures (x + r) + h == r + (h + x)
  {
  }

  lemma ActiveKeysUpdate(lanes: map<Bytes, Lane>, a: Bytes, lane: Lane)
    ensures ActiveKeys(lanes[a := lane]) == if lane.active then ActiveKeys(lanes) + {a} else ActiveKeys(lanes) - {a}
    ensures lanes[a := lane].Keys == lanes.Keys + {a}
  {
  }

  lemma ActiveKeysRemove(lanes: map<Bytes, Lane>, a: Bytes)
    ensures ActiveKeys(lanes - {a}) == ActiveKeys(lanes) - {a} && (lanes - {a}).Keys == lanes.Keys - {a}
  {
  }

  // ---- logs ----

  lemma ForTargetAppend(log: seq<Item>, item: Item, a: Bytes)
    ensures ForTarget(log + [item], a) == ForTarget(log, a) + (if item.address == a then [item] else [])
  {
    assert (log + [item])[..|log|] == log;
  }

  // ---- Enqueue ----

  lemma QueueBytesAppend(items: seq<Item>, item: Item)
    ensures QueueBytes(items + [item]) == QueueBytes(items) + item.charge
  {
    if items != [] {
      assert (items + [item])[1..] == items[1..] + [item];
      QueueBytesAppend(items[1..], item);
    } else {
      assert items + [item] == [item];
    }
  }

  lemma EnqueueKeepsLanes(q: Queue, payload: Bytes, a: Bytes)
    requires Inv(q) && Decide(q, payload, a) == Accepted
    ensures var p := Enqueue(q, payload, a);
      LanesOk(p.maxTargetPackets, p.laneSerial, p.lanes) && Accounted(p.lanes, p.packets, p.bytes)
  {
    var p := Enqueue(q, payload, a);
    GrownLaneOk(q, payload, a);
    OneMoreLane(q.maxTargetPackets, q.laneSerial, p.laneSerial, q.lanes, a, p.lanes[a]);
    SumUpdate(q.lanes, a, p.lanes[a], LanePackets);
    SumUpdate(q.lanes, a, p.lanes[a], LaneBytes);
  }

  lemma GrownLaneOk(q: Queue, payload: Bytes, a: Bytes)
    requires LanesOk(q.maxTargetPackets, q.laneSerial, q.lanes) && Configured(q) && Decide(q, payload, a) == Accepted
    ensures var p := Grow(q, payload, a); LaneOk(q.maxTargetPackets, p.laneSerial, a, p.lanes[a])
  {
    var p := Grow(q, payload, a);
    var item := Item(payload, a, Charge(payload, a));
    QueueBytesAppend(Waiting(q.lanes, a), item);
    assert p.lanes[a].queue == Waiting(q.lanes, a) + [item];
    if a in q.lanes { assert LaneOk(q.maxTargetPackets, q.laneSerial, a, q.lanes[a]); }
  }

  lemma OneMoreLane(limit: nat, serial: nat, later: nat, lanes: map<Bytes, Lane>, a: Bytes, lane: Lane)
    requires LanesOk(limit, serial, lanes) && serial <= later && LaneOk(limit, later, a, lane)
    ensures LanesOk(limit, later, lanes[a := lane])
  {
    var next := lanes[a := lane];
    forall b <- next ensures LaneOk(limit, later, b, next[b]) {
      if b != a { assert LaneOk(limit, serial, b, lanes[b]); }
    }
  }

  lemma InsertKeepsSenders(q: Queue, payload: Bytes, a: Bytes)
    requires SendersOk(q.lanes, q.workers)
    ensures var p := Insert(q, payload, a); SendersOk(p.lanes, p.workers)
  {
    var p := Insert(q, payload, a);
    QueueBytesAppend(Waiting(q.lanes, a), Item(payload, a, Charge(payload, a)));
    forall i | 0 <= i < |p.workers| ensures SenderOk(p.lanes, p.workers[i]) {
      if i < |q.workers| && p.workers[i].Sending? {
        assert SenderOk(q.lanes, q.workers[i]);
      }
    }
  }

  lemma InsertKeepsPlaces(q: Queue, payload: Bytes, a: Bytes)
    requires ActivePlaced(q.lanes, q.workers) && InactivePlaced(q.lanes, q.ready, q.workers)
    ensures var p := Insert(q, payload, a);
      ActivePlaced(p.lanes, p.workers) && InactivePlaced(p.lanes, p.ready, p.workers)
  {
    var p := Insert(q, payload, a);
    BagAppendIdle(q.workers, true);
    BagAppendIdle(q.workers, false);
    GrowKeepsPlaces(q.lanes, p.lanes, q.ready, p.ready, Bag(q.workers, false), LaneRef(q.laneSerial, a));
  }

  /** A new lane enters the ready channel; a lane that is there stays where it is. */
  lemma GrowKeepsPlaces(lanes: map<Bytes, Lane>, next: map<Bytes, Lane>, ready: seq<LaneRef>, nextReady: seq<LaneRef>,
                        held: multiset<Bytes>, ref: LaneRef)
    requires var a := ref.address;
      a in next && next == lanes[a := next[a]] && next[a].active == (a in lanes && lanes[a].active)
    requires nextReady == if ref.address in lanes then ready else ready + [ref]
    requires ReadyBag(ready) + held == multiset(lanes.Keys - ActiveKeys(lanes))
    ensures ActiveKeys(next) == ActiveKeys(lanes)
    ensures ReadyBag(nextReady) + held == multiset(next.Keys - ActiveKeys(next))
  {
    var a := ref.address;
    ActiveKeysUpdate(lanes, a, next[a]);
    assert ActiveKeys(next) == ActiveKeys(lanes);
    if a !in lanes {
      ReadyBagAppend(ready, ref);
      InactiveGrows(lanes.Keys, ActiveKeys(lanes), ReadyBag(ready), held, a);
    } else {
      assert next.Keys == lanes.Keys;
    }
  }

  lemma InsertKeepsHolders(q: Queue, payload: Bytes, a: Bytes)
    requires HoldersOk(q.lanes, q.workers) && ReadyOk(q.lanes, q.ready) && |q.workers| >= |q.lanes|
    ensures var p := Insert(q, payload, a);
      HoldersOk(p.lanes, p.workers) && ReadyOk(p.lanes, p.ready) && |p.workers| >= |p.lanes|
  {
    var p := Insert(q, payload, a);
    forall i | 0 <= i < |p.workers| ensures HolderOk(p.lanes, p.workers[i]) {
      if i < |q.workers| { assert HolderOk(q.lanes, q.workers[i]); }
    }
    assert p.lanes.Keys == q.lanes.Keys + {a};
    assert |p.lanes.Keys| <= |q.lanes.Keys| + 1;
  }

  /** The ready channel holds what the lanes outside callbacks and hands leave. */
  lemma ReadySize(q: Queue)
    requires ActivePlaced(q.lanes, q.workers) && InactivePlaced(q.lanes, q.ready, q.workers)
    ensures |q.ready| + |Bag(q.workers, false)| + |Bag(q.workers, true)| == |q.lanes|
  {
    ReadyBagSize(q.ready);
    var active := ActiveKeys(q.lanes);
    assert active <= q.lanes.Keys;
    assert |multiset(q.lanes.Keys - active)| == |q.lanes.Keys - active|;
    assert |multiset(active)| == |active|;
    assert |ReadyBag(q.ready) + Bag(q.workers, false)| == |q.lanes.Keys - active|;
    assert |q.lanes.Keys| == |q.lanes|;
  }

  lemma InsertKeepsFifo(q: Queue, payload: Bytes, a: Bytes)
    requires Fifo(q) && !q.cancelled
    ensures Fifo(Insert(q, payload, a))
  {
    var p := Insert(q, payload, a);
    forall b ensures InOrder(p.lanes, p.accepted, p.begun, b) {
      assert InOrder(q.lanes, q.accepted, q.begun, b);
      ForTargetAppend(q.accepted, Item(payload, a, Charge(payload, a)), b);
    }
  }

  lemma EnqueueKeepsBounds(q: Queue, payload: Bytes, a: Bytes)
    requires Configured(q) && Bounded(q) && Decide(q, payload, a) == Accepted
    requires ActivePlaced(q.lanes, q.workers) && InactivePlaced(q.lanes, q.ready, q.workers)
    ensures Bounded(Enqueue(q, payload, a))
  {
    ReadySize(q);
    if a in q.lanes {
      assert q.lanes.Keys + {a} == q.lanes.Keys;
    }
    ActiveKeysUpdate(q.lanes, a, Enqueue(q, payload, a).lanes[a]);
  }

  lemma EnqueueInv(q: Queue, payload: Bytes, a: Bytes)
    requires Inv(q)
    ensures Inv(Enqueue(q, payload, a))
  {
    if Decide(q, payload, a) == Accepted {
      EnqueueKeepsLanes(q, payload, a);
      InsertKeepsSenders(q, payload, a);
      InsertKeepsPlaces(q, payload, a);
      InsertKeepsHolders(q, payload, a);
      InsertKeepsFifo(q, payload, a);
      EnqueueKeepsBounds(q, payload, a);
    }
  }

  // ---- Stop ----

  lemma SubsetSize(a: set<Bytes>, b: set<Bytes>)
    requires a <= b
    ensures |a| <= |b|
  {
    assert |b| == |a| + |b - a| by { assert a + (b - a) == b; }
  }

  lemma {:induction false} ChargesNonNegative(items: seq<Item>, a: Bytes)
    requires ItemsOk(items, a)
    ensures QueueBytes(items) >= |items|
  {
    if items == [] {
    } else {
      ChargesNonNegative(items[1..], a);
    }
  }

  lemma StopAccounts(q: Queue)
    requires Inv(q)
    ensures var p := StopAll(q);
      Accounted(p.lanes, p.packets, p.bytes) && Bounded(p) && LanesOk(p.maxTargetPackets, p.laneSerial, p.lanes)
  {
    var p := StopAll(q);
    QueuedNonNegative(q.maxTargetPackets, q.laneSerial, q.lanes);
    SumAfterStop(q.lanes);
    assert p.lanes == AfterStop(q.lanes);
    StopKeepsLanes(q.maxTargetPackets, q.laneSerial, q.lanes);
    SubsetSize(p.lanes.Keys, q.lanes.Keys);
  }

  lemma QueuedNonNegative(limit: nat, serial: nat, lanes: map<Bytes, Lane>)
    requires LanesOk(limit, serial, lanes)
    ensures Sum(lanes, QueuedPackets) >= 0 && Sum(lanes, QueuedBytes) >= 0
  {
    forall a <- lanes ensures QueueBytes(lanes[a].queue) >= 0 {
      assert LaneOk(limit, serial, a, lanes[a]);
      ChargesNonNegative(lanes[a].queue, a);
    }
    SumNonNegative(lanes, QueuedPackets);
    SumNonNegative(lanes, QueuedBytes);
  }

  lemma StopKeepsLanes(limit: nat, serial: nat, lanes: map<Bytes, Lane>)
    requires LanesOk(limit, serial, lanes)
    ensures LanesOk(limit, serial, AfterStop(lanes))
  {
    forall a <- AfterStop(lanes) ensures LaneOk(limit, serial, a, AfterStop(lanes)[a]) {
      assert LaneOk(limit, serial, a, lanes[a]);
      ChargesNonNegative(lanes[a].queue, a);
    }
  }

  lemma StopInv(q: Queue)
    requires Inv(q)
    ensures Inv(StopAll(q))
  {
    var p := StopAll(q);
    StopAccounts(q);
    assert ActiveKeys(p.lanes) == ActiveKeys(q.lanes);
    forall i | 0 <= i < |p.workers| ensures SenderOk(p.lanes, p.workers[i]) {
      assert SenderOk(q.lanes, q.workers[i]);
    }
    forall a ensures ForTarget(p.begun, a) <= ForTarget(p.accepted, a) {
      assert !q.cancelled ==> InOrder(q.lanes, q.accepted, q.begun, a);
    }
  }

  lemma StopAndExitInv(q: Queue, w: nat)
    requires Inv(q) && w < |q.workers| && !q.workers[w].Sending?
    ensures Inv(StopAndExit(q, w))
  {
    StopInv(q);
    var p := StopAndExit(q, w);
    BagUpdate(q.workers, w, Exited, true);
    forall i | 0 <= i < |p.workers| ensures SenderOk(p.lanes, p.workers[i]) {
      assert SenderOk(p.lanes, q.workers[i]);
    }
  }

  // ---- a worker's sections ----

  lemma TakeKeepsPlaces(q: Queue, w: nat)
    requires Enabled(q, DoTake(w)) && ActivePlaced(q.lanes, q.workers)
    ensures var p := TakeReady(q, w);
      && ActivePlaced(p.lanes, p.workers)
      && (InactivePlaced(q.lanes, q.ready, q.workers) ==> InactivePlaced(p.lanes, p.ready, p.workers))
  {
    TakeMoves(q.ready, q.workers, w);
  }

  /** The address leaves the bag of the channel for the bag of hands. */
  lemma TakeMoves(ready: seq<LaneRef>, workers: seq<Worker>, w: nat)
    requires ready != [] && w < |workers| && workers[w].Idle?
    ensures var next := workers[w := Holding(ready[0])];
            && Bag(next, true) == Bag(workers, true)
            && ReadyBag(ready[1..]) + Bag(next, false) == ReadyBag(ready) + Bag(workers, false)
  {
    var a := multiset{ready[0].address};
    BagUpdate(workers, w, Holding(ready[0]), true);
    BagUpdate(workers, w, Holding(ready[0]), false);
    NothingOut(Bag(workers, true), multiset{});
    NothingOut(Bag(workers, false), a);
    Shift(a, ReadyBag(ready[1..]), Bag(workers, false));
  }

  lemma NothingOut(b: multiset<Bytes>, x: multiset<Bytes>)
    ensures b - multiset{} + x == b + x && b - multiset{} == b && b + multiset{} == b
  {
  }

  lemma TakeKeepsWorkers(q: Queue, w: nat)
    requires Enabled(q, DoTake(w)) && SendersOk(q.lanes, q.workers)
    ensures SendersOk(q.lanes, TakeReady(q, w).workers)
    ensures HoldersOk(q.lanes, q.workers) && ReadyOk(q.lanes, q.ready) ==> HoldersOk(q.lanes, TakeReady(q, w).workers)
  {
  }

  lemma TakeInv(q: Queue, w: nat)
    requires Inv(q) && Enabled(q, DoTake(w))
    ensures Inv(TakeReady(q, w))
  {
    TakeKeepsPlaces(q, w);
    TakeKeepsWorkers(q, w);
  }

  /** The lane a worker holds is not in a callback: it is still waiting to be started. */
  lemma HeldIsInactive(q: Queue, w: nat)
    requires Inv(q) && !q.stopped && w < |q.workers| && q.workers[w].Holding?
    ensures var a := q.workers[w].lane.address;
      Resolves(q.lanes, q.workers[w].lane) && !q.lanes[a].active && q.lanes[a].queue != []
  {
    assert HolderOk(q.lanes, q.workers[w]);
    BagUpdate(q.workers, w, Idle, false);
    var a := q.workers[w].lane.address;
    assert a in ReadyBag(q.ready) + Bag(q.workers, false);
    assert a in multiset(q.lanes.Keys - ActiveKeys(q.lanes));
    assert LaneOk(q.maxTargetPackets, q.laneSerial, a, q.lanes[a]);
  }

  /** Workers other than `w` do not look at the lane `w` holds or sends for. */
  lemma BeginKeepsWorkers(q: Queue, w: nat)
    requires Inv(q) && CanBegin(q, w) && !q.cancelled
    ensures var p := Begin(q, w);
      SendersOk(p.lanes, p.workers) && HoldersOk(p.lanes, p.workers) && ReadyOk(p.lanes, p.ready)
  {
    HeldIsInactive(q, w);
    var p := Begin(q, w);
    forall i | 0 <= i < |p.workers| ensures SenderOk(p.lanes, p.workers[i]) && HolderOk(p.lanes, p.workers[i]) {
      assert SenderOk(q.lanes, q.workers[i]) && HolderOk(q.lanes, q.workers[i]);
      assert LaneOk(q.maxTargetPackets, q.laneSerial, q.workers[w].lane.address, q.lanes[q.workers[w].lane.address]);
    }
  }

  lemma BeginKeepsPlaces(q: Queue, w: nat)
    requires ActivePlaced(q.lanes, q.workers) && InactivePlaced(q.lanes, q.ready, q.workers)
    requires CanBegin(q, w) && !q.cancelled && !q.stopped && !q.lanes[q.workers[w].lane.address].active
    ensures var p := Begin(q, w); ActivePlaced(p.lanes, p.workers) && InactivePlaced(p.lanes, p.ready, p.workers)
  {
    var p := Begin(q, w);
    var a := q.workers[w].lane.address;
    assert p.lanes == q.lanes[a := p.lanes[a]] && p.lanes.Keys == q.lanes.Keys;
    ActiveKeysUpdate(q.lanes, a, p.lanes[a]);
    HandMoves(q.workers, w, p.workers[w], q.lanes.Keys, ActiveKeys(q.lanes), ReadyBag(q.ready));
  }

  /** The address leaves the bag of hands for the bag of callbacks. */
  lemma HandMoves(workers: seq<Worker>, w: nat, worker: Worker, keys: set<Bytes>, active: set<Bytes>,
                  r: multiset<Bytes>)
    requires w < |workers| && workers[w].Holding? && worker.Sending? && worker.lane == workers[w].lane
    requires worker.lane.address in keys - active
    requires Bag(workers, true) == multiset(active) && r + Bag(workers, false) == multiset(keys - active)
    ensures var next := workers[w := worker];
            && Bag(next, true) == multiset(active + {worker.lane.address})
            && r + Bag(next, false) == multiset(keys - (active + {worker.lane.address}))
  {
    var a := worker.lane.address;
    BagUpdate(workers, w, worker, true);
    BagUpdate(workers, w, worker, false);
    NothingOut(Bag(workers, true), multiset{a});
    NothingOut(Bag(workers, false) - multiset{a}, multiset{a});
    ActiveGrows(active, Bag(workers, true), a);
    InactiveShrinks(keys, active, r, Bag(workers, false), a);
  }

  lemma BeginKeepsLanes(q: Queue, w: nat)
    requires Inv(q) && CanBegin(q, w) && !q.cancelled && !q.stopped && !q.lanes[q.workers[w].lane.address].active
    ensures var p := Begin(q, w);
      LanesOk(p.maxTargetPackets, p.laneSerial, p.lanes) && Accounted(p.lanes, p.packets, p.bytes)
  {
    var p := Begin(q, w);
    var a := q.workers[w].lane.address;
    assert LaneOk(q.maxTargetPackets, q.laneSerial, a, q.lanes[a]);
    OneMoreLane(q.maxTargetPackets, q.laneSerial, q.laneSerial, q.lanes, a, p.lanes[a]);
    SumUpdate(q.lanes, a, p.lanes[a], LanePackets);
    SumUpdate(q.lanes, a, p.lanes[a], LaneBytes);
  }

  lemma BeginKeepsFifo(q: Queue, w: nat)
    requires Fifo(q) && CanBegin(q, w) && !q.cancelled && !q.stopped
    requires ItemsOk(q.lanes[q.workers[w].lane.address].queue, q.workers[w].lane.address)
    ensures Fifo(Begin(q, w))
  {
    var p := Begin(q, w);
    var a := q.workers[w].lane.address;
    forall b ensures InOrder(p.lanes, p.accepted, p.begun, b) {
      assert InOrder(q.lanes, q.accepted, q.begun, b);
      ForTargetAppend(q.begun, q.lanes[a].queue[0], b);
    }
  }

  lemma BeginInv(q: Queue, w: nat)
    requires Inv(q) && CanBegin(q, w)
    ensures Inv(Begin(q, w))
  {
    if q.stopped || q.cancelled {
      StopAndExitInv(q, w);
    } else {
      HeldIsInactive(q, w);
      BeginKeepsWorkers(q, w);
      BeginKeepsPlaces(q, w);
      BeginKeepsLanes(q, w);
      var a := q.workers[w].lane.address;
      assert LaneOk(q.maxTargetPackets, q.laneSerial, a, q.lanes[a]);
      BeginKeepsFifo(q, w);
      assert Begin(q, w).lanes.Keys == q.lanes.Keys;
    }
  }

  /** Two callbacks never run for the same lane. */
  lemma SendersApart(q: Queue, i: nat, j: nat)
    requires ActivePlaced(q.lanes, q.workers)
    requires i < |q.workers| && j < |q.workers| && i != j && q.workers[i].Sending? && q.workers[j].Sending?
    ensures q.workers[i].lane.address != q.workers[j].lane.address
  {
    assert multiset(ActiveKeys(q.lanes))[q.workers[i].lane.address] <= 1;
    if q.workers[i].lane.address == q.workers[j].lane.address {
      BagCountsBoth(q.workers, if i < j then i else j, if i < j then j else i);
    }
  }

  /** An ended lane is retired, or goes back to the ready channel. */
  ghost predicate Ended(q: Queue, p: Queue, ref: LaneRef) {
    || (p.lanes == q.lanes - {ref.address} && p.ready == q.ready)
    || (ref.address in p.lanes && !p.lanes[ref.address].active
        && p.lanes == q.lanes[ref.address := p.lanes[ref.address]] && p.ready == q.ready + [ref])
  }

  lemma EndShape(q: Queue, w: nat)
    requires CanEnd(q, w) && SenderOk(q.lanes, q.workers[w])
    ensures Ended(q, End(q, w), q.workers[w].lane) && End(q, w).workers == q.workers[w := Idle]
  {
  }

  lemma EndKeepsBags(workers: seq<Worker>, w: nat, active: set<Bytes>)
    requires w < |workers| && workers[w].Sending? && workers[w].lane.address in active
    requires Bag(workers, true) == multiset(active)
    ensures Bag(workers[w := Idle], true) == multiset(active - {workers[w].lane.address})
    ensures Bag(workers[w := Idle], false) == Bag(workers, false)
  {
    BagUpdate(workers, w, Idle, true);
    BagUpdate(workers, w, Idle, false);
    ActiveShrinks(active, Bag(workers, true), workers[w].lane.address);
  }

  lemma EndKeepsActive(q: Queue, w: nat)
    requires CanEnd(q, w) && SenderOk(q.lanes, q.workers[w]) && ActivePlaced(q.lanes, q.workers)
    ensures var p := End(q, w);
      && ActivePlaced(p.lanes, p.workers)
      && ActiveKeys(p.lanes) == ActiveKeys(q.lanes) - {q.workers[w].lane.address}
      && Bag(p.workers, false) == Bag(q.workers, false)
  {
    EndShape(q, w);
    EndedKeys(q, End(q, w), q.workers[w].lane);
    EndKeepsBags(q.workers, w, ActiveKeys(q.lanes));
  }

  lemma EndedKeys(q: Queue, p: Queue, ref: LaneRef)
    requires Ended(q, p, ref)
    ensures ActiveKeys(p.lanes) == ActiveKeys(q.lanes) - {ref.address}
    ensures p.lanes.Keys ==
            if ref.address in p.lanes then q.lanes.Keys + {ref.address} else q.lanes.Keys - {ref.address}
  {
    var a := ref.address;
    if a in p.lanes { ActiveKeysUpdate(q.lanes, a, p.lanes[a]); } else { ActiveKeysRemove(q.lanes, a); }
  }

  lemma EndKeepsPlaces(q: Queue, w: nat)
    requires CanEnd(q, w) && SenderOk(q.lanes, q.workers[w]) && ActivePlaced(q.lanes, q.workers)
    requires InactivePlaced(q.lanes, q.ready, q.workers)
    ensures InactivePlaced(End(q, w).lanes, End(q, w).ready, End(q, w).workers)
  {
    EndShape(q, w);
    EndedPlaces(q, End(q, w), q.workers[w].lane, Bag(q.workers, false));
    EndKeepsBags(q.workers, w, ActiveKeys(q.lanes));
  }

  lemma EndedPlaces(q: Queue, p: Queue, ref: LaneRef, held: multiset<Bytes>)
    requires Ended(q, p, ref) && ref.address in ActiveKeys(q.lanes)
    requires ReadyBag(q.ready) + held == multiset(q.lanes.Keys - ActiveKeys(q.lanes))
    ensures ReadyBag(p.ready) + held == multiset(p.lanes.Keys - ActiveKeys(p.lanes))
  {
    EndedKeys(q, p, ref);
    var keys, active := q.lanes.Keys - {ref.address}, ActiveKeys(q.lanes) - {ref.address};
    assert keys - active == q.lanes.Keys - ActiveKeys(q.lanes);
    if ref.address in p.lanes {
      ReadyBagAppend(q.ready, ref);
      InactiveGrows(keys, active, ReadyBag(q.ready), held, ref.address);
      assert p.lanes.Keys == keys + {ref.address};
    } else {
      assert p.lanes.Keys == keys;
    }
  }

  /** Ending a callback leaves the lanes of every other worker and ready entry alone. */
  lemma EndKeepsSenders(q: Queue, w: nat)
    requires CanEnd(q, w) && SendersOk(q.lanes, q.workers) && ActivePlaced(q.lanes, q.workers)
    ensures SendersOk(End(q, w).lanes, End(q, w).workers)
  {
    var p := End(q, w);
    assert SenderOk(q.lanes, q.workers[w]);
    forall i | 0 <= i < |p.workers| ensures SenderOk(p.lanes, p.workers[i]) {
      assert SenderOk(q.lanes, q.workers[i]);
      if i != w && q.workers[i].Sending? { SendersApart(q, i, w); }
    }
  }

  lemma EndKeepsRunning(q: Queue, w: nat)
    requires Inv(q) && CanEnd(q, w) && !q.stopped
    ensures Running(End(q, w)) && |End(q, w).ready| <= q.maxTargets
  {
    var p := End(q, w);
    assert SenderOk(q.lanes, q.workers[w]);
    EndKeepsPlaces(q, w);
    EndKeepsInactive(q, w);
    ReadySize(q);
    BagUpdate(q.workers, w, Idle, true);
    assert |p.lanes| <= |q.lanes| by { SubsetSize(p.lanes.Keys, q.lanes.Keys); }
  }

  lemma EndKeepsInactive(q: Queue, w: nat)
    requires Inv(q) && CanEnd(q, w) && !q.stopped
    ensures HoldersOk(End(q, w).lanes, End(q, w).workers) && ReadyOk(End(q, w).lanes, End(q, w).ready)
  {
    var p := End(q, w);
    var a := q.workers[w].lane.address;
    assert SenderOk(q.lanes, q.workers[w]);
    forall i | 0 <= i < |p.workers| ensures HolderOk(p.lanes, p.workers[i]) {
      assert HolderOk(q.lanes, q.workers[i]);
      if q.workers[i].Holding? { HeldIsInactive(q, i); }
    }
    forall i | 0 <= i < |p.ready| ensures Resolves(p.lanes, p.ready[i]) {
      if i < |q.ready| { ReadyIsInactive(q, i); }
    }
  }

  lemma {:induction false} ReadyBagContains(ready: seq<LaneRef>, i: nat)
    requires i < |ready|
    ensures ready[i].address in ReadyBag(ready)
  {
    if i == 0 {
    } else {
      ReadyBagContains(ready[1..], i - 1);
    }
  }

  lemma ReadyIsInactive(q: Queue, i: nat)
    requires Inv(q) && !q.stopped && i < |q.ready|
    ensures Resolves(q.lanes, q.ready[i]) && !q.lanes[q.ready[i].address].active
  {
    ReadyBagContains(q.ready, i);
    assert q.ready[i].address in ReadyBag(q.ready) + Bag(q.workers, false);
    assert q.ready[i].address in multiset(q.lanes.Keys - ActiveKeys(q.lanes));
  }

  lemma EndAccounts(q: Queue, w: nat)
    requires Inv(q) && CanEnd(q, w)
    ensures var p := End(q, w);
      && LanesOk(p.maxTargetPackets, p.laneSerial, p.lanes) && Accounted(p.lanes, p.packets, p.bytes)
      && p.packets <= q.packets && p.bytes <= q.bytes
  {
    var p := End(q, w);
    var a, item := q.workers[w].lane.address, q.workers[w].item;
    assert SenderOk(q.lanes, q.workers[w]);
    assert LaneOk(q.maxTargetPackets, q.laneSerial, a, q.lanes[a]);
    ChargesNonNegative(q.lanes[a].queue, a);
    if a in p.lanes {
      SumUpdate(q.lanes, a, p.lanes[a], LanePackets);
      SumUpdate(q.lanes, a, p.lanes[a], LaneBytes);
    } else {
      SumRemove(q.lanes, a, LanePackets);
      SumRemove(q.lanes, a, LaneBytes);
    }
  }

  lemma EndInv(q: Queue, w: nat)
    requires Inv(q) && CanEnd(q, w)
    ensures Inv(End(q, w))
  {
    var p := End(q, w);
    assert SenderOk(q.lanes, q.workers[w]);
    EndAccounts(q, w);
    EndKeepsSenders(q, w);
    EndKeepsActive(q, w);
    SubsetSize(p.lanes.Keys, q.lanes.Keys);
    if !q.stopped { EndKeepsRunning(q, w); }
    EndKeepsFifo(q, w);
  }

  lemma EndKeepsFifo(q: Queue, w: nat)
    requires Fifo(q) && CanEnd(q, w) && SenderOk(q.lanes, q.workers[w]) && (q.stopped ==> q.cancelled)
    ensures Fifo(End(q, w))
  {
    var p := End(q, w);
    if !q.cancelled {
      forall b ensures InOrder(p.lanes, p.accepted, p.begun, b) {
        assert InOrder(q.lanes, q.accepted, q.begun, b);
      }
    }
  }

  // ---- whole runs ----

  lemma StepInv(q: Queue, step: Step)
    requires Inv(q) && Enabled(q, step)
    ensures Inv(Apply(q, step))
  {
    match step
    case DoEnqueue(payload, a) => EnqueueInv(q, payload, a);
    case DoTake(w) => TakeInv(q, w);
    case DoSeeDone(w) => StopAndExitInv(q, w);
    case DoBegin(w) => BeginInv(q, w);
    case DoReturn(w, outcome) => MarkInv(q, w, Return(q, w, outcome).workers[w].progress);
    case DoFatal(w) => FatalInv(q, w);
    case DoEnd(w) => EndInv(q, w);
    case DoStop => StopInv(q);
    case DoParentCancel => CancelInv(q);
  }

  lemma MarkKeepsBags(workers: seq<Worker>, w: nat, progress: Progress, sending: bool)
    requires w < |workers| && workers[w].Sending?
    ensures Bag(workers[w := workers[w].(progress := progress)], sending) == Bag(workers, sending)
  {
    var marked := workers[w].(progress := progress);
    BagUpdate(workers, w, marked, sending);
    assert Part(marked, sending) == Part(workers[w], sending);
    Putback(Bag(workers, sending), Part(marked, sending));
  }

  lemma Putback(b: multiset<Bytes>, x: multiset<Bytes>)
    requires x <= b
    ensures b - x + x == b
  {
  }

  lemma MarkKeepsWorkers(lanes: map<Bytes, Lane>, workers: seq<Worker>, w: nat, progress: Progress)
    requires w < |workers| && workers[w].Sending?
    ensures var next := workers[w := workers[w].(progress := progress)];
            && (SendersOk(lanes, workers) ==> SendersOk(lanes, next))
            && (HoldersOk(lanes, workers) ==> HoldersOk(lanes, next))
  {
    var next := workers[w := workers[w].(progress := progress)];
    if SendersOk(lanes, workers) {
      forall i | 0 <= i < |next| ensures SenderOk(lanes, next[i]) { assert SenderOk(lanes, workers[i]); }
    }
    if HoldersOk(lanes, workers) {
      forall i | 0 <= i < |next| ensures HolderOk(lanes, next[i]) { assert HolderOk(lanes, workers[i]); }
    }
  }

  /** How far a callback has come is nobody else's business. */
  lemma MarkInv(q: Queue, w: nat, progress: Progress)
    requires Inv(q) && w < |q.workers| && q.workers[w].Sending?
    ensures Inv(Mark(q, w, progress))
  {
    MarkKeepsBags(q.workers, w, progress, true);
    MarkKeepsBags(q.workers, w, progress, false);
    MarkKeepsWorkers(q.lanes, q.workers, w, progress);
  }

  lemma FatalInv(q: Queue, w: nat)
    requires Inv(q) && Enabled(q, DoFatal(w))
    ensures Inv(ReportFatal(q, w))
  {
    if q.fatalDone {
      MarkInv(q, w, Settled);
    } else {
      StopInv(q);
      var p := StopAll(q).(fatalDone := true, errors := q.errors + [q.workers[w].progress.err]);
      assert Inv(p);
      MarkInv(p, w, Settled);
    }
  }

  lemma CancelInv(q: Queue)
    requires Inv(q)
    ensures Inv(q.(cancelled := true))
  {
    forall a ensures ForTarget(q.begun, a) <= ForTarget(q.accepted, a) {
      assert !q.cancelled ==> InOrder(q.lanes, q.accepted, q.begun, a);
    }
  }

  lemma InitInv(maxPackets: int, maxTargets: int)
    ensures Inv(Init(maxPackets, maxTargets))
  {
    var q := Init(maxPackets, maxTargets);
    assert ActiveKeys(q.lanes) == {};
    forall a ensures InOrder(q.lanes, q.accepted, q.begun, a) {}
  }

  lemma {:induction false} RunInv(from: Queue, steps: seq<Step>, q: Queue)
    requires Inv(from) && Reaches(from, steps, q)
    ensures Inv(q)
    decreases |steps|
  {
    if steps == [] {
    } else {
      StepInv(from, steps[0]);
      RunInv(Apply(from, steps[0]), steps[1..], q);
    }
  }

  ghost predicate Reachable(q: Queue) {
    exists maxPackets: int, maxTargets: int, steps: seq<Step> :: Reaches(Init(maxPackets, maxTargets), steps, q)
  }

  /** A run goes on with one more step. */
  lemma {:induction false} ReachesOneMore(from: Queue, steps: seq<Step>, q: Queue, step: Step)
    requires Reaches(from, steps, q) && Enabled(q, step)
    ensures Reaches(from, steps + [step], Apply(q, step))
    decreases |steps|
  {
    if steps == [] {
      assert [step][1..] == [];
    } else {
      ReachesOneMore(Apply(from, steps[0]), steps[1..], q, step);
      assert (steps + [step])[1..] == steps[1..] + [step];
    }
  }

  lemma ReachableOneMore(q: Queue, step: Step)
    requires Reachable(q) && Enabled(q, step)
    ensures Reachable(Apply(q, step))
  {
    var maxPackets: int, maxTargets: int, steps :| Reaches(Init(maxPackets, maxTargets), steps, q);
    ReachesOneMore(Init(maxPackets, maxTargets), steps, q, step);
  }

  lemma InitIsReachable(maxPackets: int, maxTargets: int)
    ensures Reachable(Init(maxPackets, maxTargets))
  {
    assert Reaches(Init(maxPackets, maxTargets), [], Init(maxPackets, maxTargets));
  }

  lemma ReachableInv(q: Queue)
    requires Reachable(q)
    ensures Inv(q)
  {
    var maxPackets: int, maxTargets: int, steps :| Reaches(Init(maxPackets, maxTargets), steps, q);
    InitInv(maxPackets, maxTargets);
    RunInv(Init(maxPackets, maxTargets), steps, q);
  }

  /** Whatever happens next, both channels written under the mutex stay within their capacity. */
  lemma SendsNeverBlock(q: Queue, step: Step)
    requires Reachable(q) && Enabled(q, step)
    ensures |Apply(q, step).ready| <= q.maxTargets && |Apply(q, step).errors| <= 1
  {
    ReachableInv(q);
    StepInv(q, step);
    WithinCapacity(Apply(q, step));
    LimitsStay(q, step);
  }

  lemma WithinCapacity(q: Queue)
    requires Inv(q)
    ensures |q.ready| <= q.maxTargets && |q.errors| <= 1
  {
  }

  lemma LimitsStay(q: Queue, step: Step)
    requires Enabled(q, step)
    ensures Apply(q, step).maxTargets == q.maxTargets
  {
  }

  /** Until Stop there is an idle worker for every ready lane, even if every running callback hangs. */
  lemma ReadyLanesHaveIdleWorkers(q: Queue)
    requires Reachable(q) && !q.stopped
    ensures |q.workers| >= |q.lanes| && IdleWorkers(q.workers) >= |q.ready|
  {
    ReachableInv(q);
    ReadySize(q);
    forall i | 0 <= i < |q.workers| ensures !q.workers[i].Exited? { assert HolderOk(q.lanes, q.workers[i]); }
    WorkerCount(q.workers);
  }

  ghost predicate InReady(q: Queue, a: Bytes) {
    exists i :: 0 <= i < |q.ready| && q.ready[i].address == a
  }

  ghost predicate AtWorker(q: Queue, a: Bytes, w: nat) {
    w < |q.workers| && (q.workers[w].Holding? || q.workers[w].Sending?) && q.workers[w].lane.address == a
  }

  /** No lane is lost: until Stop each is ready, in the hand of a worker, or in a callback. */
  lemma NoLaneIsForgotten(q: Queue, a: Bytes)
    requires Reachable(q) && !q.stopped && a in q.lanes
    ensures InReady(q, a) || exists w :: AtWorker(q, a, w)
  {
    ReachableInv(q);
    if q.lanes[a].active {
      assert a in multiset(ActiveKeys(q.lanes));
      var w := BagMember(q.workers, a, true);
      assert AtWorker(q, a, w);
    } else {
      assert a in multiset(q.lanes.Keys - ActiveKeys(q.lanes));
      if a in ReadyBag(q.ready) {
        var i := ReadyMember(q.ready, a);
      } else {
        assert a in Bag(q.workers, false);
        var w := BagMember(q.workers, a, false);
        assert AtWorker(q, a, w);
      }
    }
  }

  /** Lane pointers never dangle: a worker that holds a lane can start it, one that sends can finish. */
  lemma WorkersNeverDangle(q: Queue, w: nat)
    requires Reachable(q) && w < |q.workers|
    ensures q.workers[w].Holding? ==> CanBegin(q, w)
    ensures q.workers[w].Sending? ==> Resolves(q.lanes, q.workers[w].lane)
    ensures q.workers[w].Sending? && q.workers[w].progress == Settled ==> CanEnd(q, w)
  {
    ReachableInv(q);
    assert SenderOk(q.lanes, q.workers[w]);
    if !q.stopped && q.workers[w].Holding? { HeldIsInactive(q, w); }
  }

  /** Per target, callbacks never overlap ... */
  lemma CallbacksNeverOverlap(q: Queue, i: nat, j: nat)
    requires Reachable(q) && i < |q.workers| && j < |q.workers| && i != j
    requires q.workers[i].Sending? && q.workers[j].Sending?
    ensures q.workers[i].item.address != q.workers[j].item.address
  {
    ReachableInv(q);
    assert SenderOk(q.lanes, q.workers[i]) && SenderOk(q.lanes, q.workers[j]);
    SendersApart(q, i, j);
  }

  /** ... and what was sent is a prefix of what was accepted; nothing is dropped while the queue lives. */
  lemma PerTargetFifo(q: Queue, a: Bytes)
    requires Reachable(q)
    ensures ForTarget(q.begun, a) <= ForTarget(q.accepted, a)
    ensures !q.cancelled ==> ForTarget(q.accepted, a) == ForTarget(q.begun, a) + Waiting(q.lanes, a)
  {
    ReachableInv(q);
    assert !q.cancelled ==> InOrder(q.lanes, q.accepted, q.begun, a);
  }

  /** Accounting is exact and every documented limit holds, running callbacks included. */
  lemma AccountingIsExact(q: Queue)
    requires Reachable(q)
    ensures q.packets == Sum(q.lanes, LanePackets) <= q.maxPackets
    ensures q.bytes == Sum(q.lanes, LaneBytes) <= MAX_BYTES
    ensures |q.lanes| <= q.maxTargets <= MAX_TARGETS
    ensures forall a <- q.lanes ::
      && q.lanes[a].packets == |q.lanes[a].queue| + (if a in Bag(q.workers, true) then 1 else 0)
      && q.lanes[a].packets <= q.maxPackets / 2 + q.maxPackets % 2 && q.lanes[a].bytes <= TARGET_MAX_BYTES
  {
    ReachableInv(q);
    forall a <- q.lanes
      ensures LaneOk(q.maxTargetPackets, q.laneSerial, a, q.lanes[a])
      ensures a in Bag(q.workers, true) <==> q.lanes[a].active
    {
      assert a in multiset(ActiveKeys(q.lanes)) <==> a in ActiveKeys(q.lanes);
    }
  }

  /** Once stopped with every callback returned, nothing is charged and no lane remains. */
  lemma NothingLeftAfterStop(q: Queue)
    requires Reachable(q) && q.stopped
    requires forall w :: 0 <= w < |q.workers| ==> !q.workers[w].Sending?
    ensures q.packets == 0 && q.bytes == 0 && q.lanes == map[]
  {
    ReachableInv(q);
    if a :| a in q.lanes {
      assert a in multiset(ActiveKeys(q.lanes));
      var w := BagMember(q.workers, a, true);
    }
    assert q.lanes == map[];
  }

  /** After cancellation nothing more is ever accepted or started. */
  lemma {:induction false} CancelIsFinal(from: Queue, steps: seq<Step>, q: Queue)
    requires from.cancelled && Reaches(from, steps, q)
    ensures q.cancelled && q.accepted == from.accepted && q.begun == from.begun
    decreases |steps|
  {
    if steps == [] {
    } else {
      CancelIsFinal(Apply(from, steps[0]), steps[1..], q);
    }
  }
}
