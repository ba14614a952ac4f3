/**
 * The bounded per-target packet scheduler of internal/transport/packet_send_queue.go.
 *
 * `Queue` is a snapshot of everything the mutex protects, of the `ready` channel and of what each
 * worker goroutine holds in its locals.  One function models each critical section or channel
 * operation; class `PacketSendQueue` performs the same sections by updating fields in place.
 */
module SendQueue {
  import opened Basics
  import opened MapSums

  const MAX_TARGETS: nat := 8
  const MAX_BYTES: nat := 262144
  const TARGET_MAX_BYTES: nat := 131072

  datatype Item = Item(payload: Bytes, address: Bytes, charge: int)

  /** `id` is the identity of the lane object: a retired lane and its successor differ in it. */
  datatype Lane = Lane(id: nat, queue: seq<Item>, packets: int, bytes: int, active: bool)

  /** A pointer to a lane, as it travels through the ready channel and the workers' locals. */
  datatype LaneRef = LaneRef(id: nat, address: Bytes)

  /** What a callback returns: nil, an error that drops this packet only, or any other error. */
  datatype Outcome = Sent | Dropped | Broken(err: int)

  /** How far a worker is with its callback. */
  datatype Progress =
    | Calling
    | Fatal(err: int)    // returned with an error to report, the context was live
    | Settled            // returned and not yet accounted

  datatype Worker =
    | Idle                              // in the select of run
    | Holding(lane: LaneRef)            // received from ready, mutex not yet taken
    | Sending(lane: LaneRef, item: Item, progress: Progress)
    | Exited

  datatype Queue = Queue(
    maxPackets: nat, maxTargetPackets: nat, maxTargets: nat,
    stopped: bool, cancelled: bool,
    lanes: map<Bytes, Lane>, packets: int, bytes: int,
    ready: seq<LaneRef>, workers: seq<Worker>,
    laneSerial: nat,
    fatalDone: bool, errors: seq<int>,
    accepted: seq<Item>, begun: seq<Item>)

  datatype Admission = Accepted | Closed | Full

  // ---- construction ----

  function MinOf3(a: int, b: int, c: int): int { Min(a, Min(b, c)) }

  function Init(maxPackets: int, maxTargets: int): Queue {
    var p := if maxPackets <= 0 then 1 else maxPackets;
    var t := if maxTargets <= 0 then MAX_TARGETS else maxTargets;
    Queue(p, p / 2 + p % 2, MinOf3(t, p, MAX_TARGETS), false, false, map[], 0, 0, [], [], 0,
          false, [], [], [])
  }

  // ---- Enqueue ----

  function Charge(payload: Bytes, address: Bytes): int { Max(1, |payload| + |address|) }

  function Decide(q: Queue, payload: Bytes, address: Bytes): Admission {
    if q.stopped || q.cancelled then Closed
    else if |payload| > MAX_BYTES || |address| > MAX_BYTES - |payload| then Full
    else
      var charge := Charge(payload, address);
      if q.packets >= q.maxPackets || charge > MAX_BYTES - q.bytes || charge > TARGET_MAX_BYTES then Full
      else if address !in q.lanes then (if |q.lanes| >= q.maxTargets then Full else Accepted)
      else if q.lanes[address].packets >= q.maxTargetPackets
           || charge > TARGET_MAX_BYTES - q.lanes[address].bytes then Full
      else Accepted
  }

  function Enqueue(q: Queue, payload: Bytes, address: Bytes): Queue {
    if Decide(q, payload, address) != Accepted then q else Insert(q, payload, address)
  }

  function Insert(q: Queue, payload: Bytes, address: Bytes): Queue {
    StartWorker(Grow(q, payload, address))
  }

  /** The lane of this address, or a new one. */
  function LaneFor(q: Queue, address: Bytes): Lane {
    if address in q.lanes then q.lanes[address] else Lane(q.laneSerial, [], 0, 0, false)
  }

  function Grown(lane: Lane, item: Item): Lane {
    lane.(queue := lane.queue + [item], packets := lane.packets + 1, bytes := lane.bytes + item.charge)
  }

  function Grow(q: Queue, payload: Bytes, address: Bytes): Queue {
    var item := Item(payload, address, Charge(payload, address));
    var isNew := address !in q.lanes;
    q.(lanes := q.lanes[address := Grown(LaneFor(q, address), item)],
       packets := q.packets + 1, bytes := q.bytes + item.charge,
       ready := if isNew then q.ready + [LaneRef(q.laneSerial, address)] else q.ready,
       laneSerial := if isNew then q.laneSerial + 1 else q.laneSerial,
       accepted := q.accepted + [item])
  }

  function StartWorker(q: Queue): Queue {
    q.(workers := if |q.workers| < |q.lanes| then q.workers + [Idle] else q.workers)
  }

  // ---- Stop and discardQueued ----

  function QueueBytes(items: seq<Item>): int {
    if items == [] then 0 else items[0].charge + QueueBytes(items[1..])
  }

  function Discarded(lane: Lane): Lane {
    lane.(queue := [], packets := lane.packets - |lane.queue|, bytes := lane.bytes - QueueBytes(lane.queue))
  }

  function QueuedPackets(lane: Lane): int { |lane.queue| }
  function QueuedBytes(lane: Lane): int { QueueBytes(lane.queue) }
  function LanePackets(lane: Lane): int { lane.packets }
  function LaneBytes(lane: Lane): int { lane.bytes }

  ghost function StopAll(q: Queue): Queue {
    q.(stopped := true, cancelled := true,
       lanes := map a | a in q.lanes && q.lanes[a].active :: Discarded(q.lanes[a]),
       packets := q.packets - Sum(q.lanes, QueuedPackets),
       bytes := q.bytes - Sum(q.lanes, QueuedBytes))
  }

  // ---- run, one worker ----

  predicate Resolves(lanes: map<Bytes, Lane>, ref: LaneRef) {
    ref.address in lanes && lanes[ref.address].id == ref.id
  }

  function TakeReady(q: Queue, w: nat): Queue
    requires w < |q.workers| && q.ready != []
  {
    q.(ready := q.ready[1..], workers := q.workers[w := Holding(q.ready[0])])
  }

  ghost function StopAndExit(q: Queue, w: nat): Queue
    requires w < |q.workers|
  {
    StopAll(q).(workers := q.workers[w := Exited])
  }

  predicate CanBegin(q: Queue, w: nat) {
    && w < |q.workers| && q.workers[w].Holding?
    && (q.stopped || q.cancelled
        || (Resolves(q.lanes, q.workers[w].lane) && q.lanes[q.workers[w].lane.address].queue != []))
  }

  ghost function Begin(q: Queue, w: nat): Queue
    requires CanBegin(q, w)
  {
    if q.stopped || q.cancelled then StopAndExit(q, w)
    else
      var ref := q.workers[w].lane;
      var lane := q.lanes[ref.address];
      q.(lanes := q.lanes[ref.address := lane.(active := true, queue := lane.queue[1..])],
         workers := q.workers[w := Sending(ref, lane.queue[0], Calling)],
         begun := q.begun + [lane.queue[0]])
  }

  predicate IsSending(q: Queue, w: nat, p: Progress) {
    w < |q.workers| && q.workers[w].Sending? && q.workers[w].progress == p
  }

  function Mark(q: Queue, w: nat, p: Progress): Queue
    requires w < |q.workers| && q.workers[w].Sending?
  {
    q.(workers := q.workers[w := q.workers[w].(progress := p)])
  }

  /** The callback is back: an error counts as fatal unless the context has ended or it concerns this packet only. */
  function Return(q: Queue, w: nat, outcome: Outcome): Queue
    requires IsSending(q, w, Calling)
  {
    Mark(q, w, if outcome.Broken? && !q.cancelled then Fatal(outcome.err) else Settled)
  }

  /** The first fatal error stops the queue and is reported. */
  ghost function ReportFatal(q: Queue, w: nat): Queue
    requires w < |q.workers| && q.workers[w].Sending? && q.workers[w].progress.Fatal?
  {
    var p := if q.fatalDone then q
             else StopAll(q).(fatalDone := true, errors := q.errors + [q.workers[w].progress.err]);
    Mark(p, w, Settled)
  }

  predicate CanEnd(q: Queue, w: nat) { IsSending(q, w, Settled) && Resolves(q.lanes, q.workers[w].lane) }

  function End(q: Queue, w: nat): Queue
    requires CanEnd(q, w)
  {
    var ref, item := q.workers[w].lane, q.workers[w].item;
    var lane := q.lanes[ref.address];
    var done := lane.(packets := lane.packets - 1, bytes := lane.bytes - item.charge, active := false);
    var q1 := q.(packets := q.packets - 1, bytes := q.bytes - item.charge, workers := q.workers[w := Idle]);
    if q.stopped || q.cancelled || done.queue == [] then
      q1.(lanes := q.lanes - {item.address},
          packets := q1.packets - |done.queue|, bytes := q1.bytes - QueueBytes(done.queue))
    else
      q1.(lanes := q.lanes[ref.address := done], ready := q.ready + [ref])
  }

  // ---- the step system ----

  datatype Step =
    | DoEnqueue(payload: Bytes, address: Bytes)
    | DoTake(worker: nat)          // receive from the ready channel
    | DoSeeDone(worker: nat)       // the select chose ctx.Done
    | DoBegin(worker: nat)         // the section that picks an item
    | DoReturn(worker: nat, outcome: Outcome)
    | DoFatal(worker: nat)         // fatalOnce
    | DoEnd(worker: nat)           // the section after the callback
    | DoStop
    | DoParentCancel

  predicate Enabled(q: Queue, step: Step) {
    match step
    case DoEnqueue(_, _) => true
    case DoTake(w) => w < |q.workers| && q.workers[w].Idle? && q.ready != []
    case DoSeeDone(w) => w < |q.workers| && q.workers[w].Idle? && q.cancelled
    case DoBegin(w) => CanBegin(q, w)
    case DoReturn(w, _) => IsSending(q, w, Calling)
    case DoFatal(w) => w < |q.workers| && q.workers[w].Sending? && q.workers[w].progress.Fatal?
    case DoEnd(w) => CanEnd(q, w)
    case DoStop => true
    case DoParentCancel => true
  }

  ghost function Apply(q: Queue, step: Step): Queue
    requires Enabled(q, step)
  {
    match step
    case DoEnqueue(payload, address) => Enqueue(q, payload, address)
    case DoTake(w) => TakeReady(q, w)
    case DoSeeDone(w) => StopAndExit(q, w)
    case DoBegin(w) => Begin(q, w)
    case DoReturn(w, outcome) => Return(q, w, outcome)
    case DoFatal(w) => ReportFatal(q, w)
    case DoEnd(w) => End(q, w)
    case DoStop => StopAll(q)
    case DoParentCancel => q.(cancelled := true)
  }

  /** `q` is reached from `from` by taking `steps` in order: any interleaving is such a sequence. */
  ghost predicate Reaches(from: Queue, steps: seq<Step>, q: Queue)
    decreases |steps|
  {
    if steps == [] then q == from
    else Enabled(from, steps[0]) && Reaches(Apply(from, steps[0]), steps[1..], q)
  }

  // ---- what the invariant talks about ----

  function Part(worker: Worker, sending: bool): multiset<Bytes> {
    match worker
    case Holding(ref) => if sending then multiset{} else multiset{ref.address}
    case Sending(ref, _, _) => if sending then multiset{ref.address} else multiset{}
    case _ => multiset{}
  }

  /** Addresses of the lanes that workers hold (sending = false) or run a callback for (true). */
  function Bag(ws: seq<Worker>, sending: bool): multiset<Bytes> {
    if ws == [] then multiset{} else Part(ws[0], sending) + Bag(ws[1..], sending)
  }

  function ReadyBag(ready: seq<LaneRef>): multiset<Bytes> {
    if ready == [] then multiset{} else multiset{ready[0].address} + ReadyBag(ready[1..])
  }

  function IdleWorkers(ws: seq<Worker>): nat {
    if ws == [] then 0 else (if ws[0].Idle? then 1 else 0) + IdleWorkers(ws[1..])
  }

  /** The items of a log that go to one target, in order. */
  function ForTarget(log: seq<Item>, address: Bytes): seq<Item> {
    if log == [] then []
    else if log[|log| - 1].address == address then ForTarget(log[..|log| - 1], address) + [log[|log| - 1]]
    else ForTarget(log[..|log| - 1], address)
  }

  function Waiting(lanes: map<Bytes, Lane>, address: Bytes): seq<Item> {
    if address in lanes then lanes[address].queue else []
  }

  function ActiveKeys(lanes: map<Bytes, Lane>): set<Bytes> { set a | a in lanes && lanes[a].active }

  // ---- the inductive invariant ----

  ghost predicate Configured(q: Queue) {
    && 1 <= q.maxTargets <= q.maxPackets && q.maxTargets <= MAX_TARGETS
    && q.maxTargetPackets == q.maxPackets / 2 + q.maxPackets % 2
  }

  ghost predicate ItemsOk(items: seq<Item>, a: Bytes) {
    forall i :: 0 <= i < |items| ==> items[i].address == a && items[i].charge == Charge(items[i].payload, a)
  }

  ghost predicate LaneOk(limit: nat, serial: nat, a: Bytes, lane: Lane) {
    && lane.id < serial
    && lane.packets == |lane.queue| + (if lane.active then 1 else 0) <= limit
    && (!lane.active ==> lane.queue != [] && lane.bytes == QueueBytes(lane.queue))
    && lane.bytes <= TARGET_MAX_BYTES
    && ItemsOk(lane.queue, a)
  }

  ghost predicate LanesOk(limit: nat, serial: nat, lanes: map<Bytes, Lane>) {
    forall a <- lanes :: LaneOk(limit, serial, a, lanes[a])
  }

  ghost predicate Accounted(lanes: map<Bytes, Lane>, packets: int, bytes: int) {
    packets == Sum(lanes, LanePackets) && bytes == Sum(lanes, LaneBytes)
  }

  ghost predicate Bounded(q: Queue) {
    q.packets <= q.maxPackets && q.bytes <= MAX_BYTES && |q.lanes| <= q.maxTargets && |q.ready| <= q.maxTargets
  }

  /** A worker's callback owns the active lane it points at, and that lane is charged for its item. */
  ghost predicate SenderOk(lanes: map<Bytes, Lane>, worker: Worker) {
    worker.Sending? ==>
      var ref, item := worker.lane, worker.item;
      && Resolves(lanes, ref)
      && item.address == ref.address
      && item.charge == Charge(item.payload, item.address)
      && lanes[ref.address].active
      && lanes[ref.address].bytes == QueueBytes(lanes[ref.address].queue) + item.charge
  }

  ghost predicate SendersOk(lanes: map<Bytes, Lane>, workers: seq<Worker>) {
    forall i :: 0 <= i < |workers| ==> SenderOk(lanes, workers[i])
  }

  /** Before Stop, every pointer in the ready channel or a worker's hand names a live lane. */
  ghost predicate HolderOk(lanes: map<Bytes, Lane>, worker: Worker) {
    !worker.Exited? && (worker.Holding? ==> Resolves(lanes, worker.lane))
  }

  ghost predicate HoldersOk(lanes: map<Bytes, Lane>, workers: seq<Worker>) {
    forall i :: 0 <= i < |workers| ==> HolderOk(lanes, workers[i])
  }

  ghost predicate ReadyOk(lanes: map<Bytes, Lane>, ready: seq<LaneRef>) {
    forall i :: 0 <= i < |ready| ==> Resolves(lanes, ready[i])
  }

  /** Each active lane is in exactly one callback ... */
  ghost predicate ActivePlaced(lanes: map<Bytes, Lane>, workers: seq<Worker>) {
    Bag(workers, true) == multiset(ActiveKeys(lanes))
  }

  /** ... and before Stop each other lane is exactly once in the ready channel or in a worker's hand. */
  ghost predicate InactivePlaced(lanes: map<Bytes, Lane>, ready: seq<LaneRef>, workers: seq<Worker>) {
    ReadyBag(ready) + Bag(workers, false) == multiset(lanes.Keys - ActiveKeys(lanes))
  }

  ghost predicate InOrder(lanes: map<Bytes, Lane>, accepted: seq<Item>, begun: seq<Item>, a: Bytes) {
    ForTarget(accepted, a) == ForTarget(begun, a) + Waiting(lanes, a)
  }

  ghost predicate Fifo(q: Queue) {
    && (q.cancelled ==> forall a :: ForTarget(q.begun, a) <= ForTarget(q.accepted, a))
    && (!q.cancelled ==> forall a :: InOrder(q.lanes, q.accepted, q.begun, a))
  }

  ghost predicate Drained(lanes: map<Bytes, Lane>) {
    forall a <- lanes :: lanes[a].active && lanes[a].queue == []
  }

  ghost predicate Errors(q: Queue) {
    if q.fatalDone then q.stopped && |q.errors| == 1 else q.errors == []
  }

  ghost predicate Core(q: Queue) {
    && Configured(q) && Bounded(q) && Fifo(q) && Errors(q)
    && LanesOk(q.maxTargetPackets, q.laneSerial, q.lanes)
    && Accounted(q.lanes, q.packets, q.bytes)
    && SendersOk(q.lanes, q.workers)
    && ActivePlaced(q.lanes, q.workers)
  }

  ghost predicate Running(q: Queue) {
    && HoldersOk(q.lanes, q.workers) && ReadyOk(q.lanes, q.ready)
    && InactivePlaced(q.lanes, q.ready, q.workers)
    && |q.workers| >= |q.lanes|
  }

  ghost predicate Inv(q: Queue) {
    Core(q) && (if q.stopped then q.cancelled && Drained(q.lanes) else Running(q))
  }
}
