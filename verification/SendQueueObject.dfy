/** The scheduler as the source writes it: one object whose critical sections update fields in place. */
module SendQueueObject {
  import opened Basics
  import opened MapSums
  import Q = SendQueue
  import opened SendQueueProofs
  import L = SendQueueLaws

  /** The lane table while Stop has still to visit `todo`. */
  ghost function PartlyStopped(all: map<Bytes, Q.Lane>, todo: set<Bytes>): map<Bytes, Q.Lane> {
    map a | a in all && (a in todo || all[a].active) :: if a in todo then all[a] else Q.Discarded(all[a])
  }

  lemma PartlyStoppedNext(all: map<Bytes, Q.Lane>, todo: set<Bytes>, a: Bytes)
    requires a in todo && todo <= all.Keys
    ensures PartlyStopped(all, todo - {a}) ==
            if all[a].active then PartlyStopped(all, todo)[a := Q.Discarded(all[a])] else PartlyStopped(all, todo) - {a}
    ensures all - (todo - {a}) == (all - todo)[a := all[a]]
  {
  }

  class PacketSendQueue {
    const maxPackets: nat
    const maxTargetPackets: nat
    const maxTargets: nat
    var stopped: bool
    var cancelled: bool
    var lanes: map<Bytes, Q.Lane>
    var packets: int
    var bytes: int
    var ready: seq<Q.LaneRef>
    var workers: seq<Q.Worker>
    var laneSerial: nat
    var fatalDone: bool
    var errors: seq<int>
    ghost var accepted: seq<Q.Item>
    ghost var begun: seq<Q.Item>

    ghost function State(): Q.Queue
      reads this
    {
      Q.Queue(maxPackets, maxTargetPackets, maxTargets, stopped, cancelled, lanes, packets, bytes, ready,
              workers, laneSerial, fatalDone, errors, accepted, begun)
    }

    /** Between its sections the queue is in a state that some interleaving reaches; every guarantee over runs
        holds of it. */
    ghost predicate Valid()
      reads this
    {
      Reachable(State())
    }

    constructor (packetLimit: int, targetLimit: int)
      ensures Valid() && State() == Q.Init(packetLimit, targetLimit)
      ensures maxPackets == Max(1, packetLimit) && 0 <= 2 * maxTargetPackets - maxPackets <= 1
      ensures maxTargets == Min(Min(8, maxPackets), if targetLimit <= 0 then 8 else targetLimit)
    {
      var p := if packetLimit <= 0 then 1 else packetLimit;
      var t := if targetLimit <= 0 then Q.MAX_TARGETS else targetLimit;
      maxPackets, maxTargetPackets, maxTargets := p, p / 2 + p % 2, Q.MinOf3(t, p, Q.MAX_TARGETS);
      stopped, cancelled, fatalDone := false, false, false;
      lanes, packets, bytes := map[], 0, 0;
      ready, workers, laneSerial, errors := [], [], 0, [];
      accepted, begun := [], [];
      new;
      InitIsReachable(packetLimit, targetLimit);
    }

    method Decide(payload: Bytes, address: Bytes) returns (r: Q.Admission)
      ensures r == Q.Decide(State(), payload, address)
    {
      if stopped || cancelled { return Q.Closed; }
      if |payload| > Q.MAX_BYTES || |address| > Q.MAX_BYTES - |payload| { return Q.Full; }
      var charge := Max(1, |payload| + |address|);
      if packets >= maxPackets || charge > Q.MAX_BYTES - bytes || charge > Q.TARGET_MAX_BYTES { return Q.Full; }
      if address !in lanes {
        return if |lanes| >= maxTargets then Q.Full else Q.Accepted;
      }
      var lane := lanes[address];
      if lane.packets >= maxTargetPackets || charge > Q.TARGET_MAX_BYTES - lane.bytes { return Q.Full; }
      return Q.Accepted;
    }

    /** The send to the ready channel, if any, finds room. */
    method Enqueue(payload: Bytes, address: Bytes) returns (r: Q.Admission)
      requires Valid()
      modifies this
      ensures Valid() && |ready| <= maxTargets && State() == Q.Enqueue(old(State()), payload, address)
      ensures r == Q.Accepted <==>
              !old(cancelled) && L.HasRoom(old(State()), Max(1, |payload| + |address|), address)
      ensures r == Q.Closed <==> old(cancelled)
      ensures accepted == old(accepted) +
              if r == Q.Accepted then [Q.Item(payload, address, Max(1, |payload| + |address|))] else []
    {
      L.AdmissionIsExact(State(), payload, address);
      var step := Q.DoEnqueue(payload, address);
      ReachableOneMore(State(), step);
      SendsNeverBlock(State(), step);
      r := Decide(payload, address);
      if r == Q.Accepted {
        Grow(Q.Item(payload, address, Q.Charge(payload, address)));
        StartWorker();
      }
    }

    method Grow(item: Q.Item)
      requires item.charge == Q.Charge(item.payload, item.address)
      modifies `lanes, `ready, `laneSerial, `packets, `bytes, `accepted
      ensures State() == Q.Grow(old(State()), item.payload, item.address)
    {
      var lane := if item.address in lanes then lanes[item.address] else Q.Lane(laneSerial, [], 0, 0, false);
      if item.address !in lanes {
        ready, laneSerial := ready + [Q.LaneRef(laneSerial, item.address)], laneSerial + 1;
      }
      lanes := lanes[item.address := Q.Grown(lane, item)];
      packets, bytes, accepted := packets + 1, bytes + item.charge, accepted + [item];
    }

    method StartWorker()
      modifies `workers
      ensures State() == Q.StartWorker(old(State()))
    {
      if |workers| < |lanes| { workers := workers + [Q.Idle]; }
    }

    /** Drops the waiting items of one lane and the charges they carry. */
    method DiscardQueued(lane: Q.Lane) returns (l: Q.Lane)
      modifies `packets, `bytes
      ensures l == Q.Discarded(lane)
      ensures packets == old(packets) - |lane.queue| && bytes == old(bytes) - Q.QueueBytes(lane.queue)
    {
      l := lane;
      var i := 0;
      while i < |lane.queue|
        invariant 0 <= i <= |lane.queue|
        invariant l == lane.(packets := lane.packets - i, bytes := l.bytes)
        invariant packets == old(packets) - i
        invariant l.bytes - Q.QueueBytes(lane.queue[i..]) == lane.bytes - Q.QueueBytes(lane.queue)
        invariant bytes - Q.QueueBytes(lane.queue[i..]) == old(bytes) - Q.QueueBytes(lane.queue)
      {
        var item := lane.queue[i];
        assert lane.queue[i..][1..] == lane.queue[i + 1..];
        l := l.(packets := l.packets - 1, bytes := l.bytes - item.charge);
        packets := packets - 1;
        bytes := bytes - item.charge;
        i := i + 1;
      }
      l := l.(queue := []);
    }

    /** The loop of Stop over the lane table. */
    method DiscardAll()
      modifies `lanes, `packets, `bytes
      ensures lanes == Q.StopAll(old(State())).lanes
      ensures packets == old(packets - Sum(lanes, Q.QueuedPackets))
      ensures bytes == old(bytes - Sum(lanes, Q.QueuedBytes))
    {
      ghost var all := lanes;
      ghost var visited := map[];
      var todo := lanes.Keys;
      assert lanes == PartlyStopped(all, todo);
      while todo != {}
        invariant todo <= all.Keys && visited == all - todo
        invariant lanes == PartlyStopped(all, todo)
        invariant packets == old(packets) - Sum(visited, Q.QueuedPackets)
        invariant bytes == old(bytes) - Sum(visited, Q.QueuedBytes)
      {
        var address :| address in todo;
        PartlyStoppedNext(all, todo, address);
        SumUpdate(visited, address, all[address], Q.QueuedPackets);
        SumUpdate(visited, address, all[address], Q.QueuedBytes);
        var lane := DiscardQueued(lanes[address]);
        if lane.active {
          lanes := lanes[address := lane];
        } else {
          lanes := lanes - {address};
        }
        todo := todo - {address};
        visited := visited[address := all[address]];
      }
      assert visited == all;
    }

    method Stop()
      requires Valid()
      modifies this
      ensures Valid() && State() == Q.StopAll(old(State()))
    {
      ReachableOneMore(State(), Q.DoStop);
      StopLocked();
    }

    method StopLocked()
      modifies `stopped, `cancelled, `lanes, `packets, `bytes
      ensures State() == Q.StopAll(old(State()))
    {
      DiscardAll();
      stopped := true;
      cancelled := true;
    }

    method ParentCancels()
      requires Valid()
      modifies `cancelled
      ensures Valid() && State() == old(State()).(cancelled := true)
    {
      ReachableOneMore(State(), Q.DoParentCancel);
      cancelled := true;
    }

    method TakeReady(w: nat)
      requires Valid() && w < |workers| && workers[w].Idle? && ready != []
      modifies `ready, `workers
      ensures Valid() && State() == Q.TakeReady(old(State()), w)
    {
      ReachableOneMore(State(), Q.DoTake(w));
      workers := workers[w := Q.Holding(ready[0])];
      ready := ready[1..];
    }

    method SeeDone(w: nat)
      requires Valid() && w < |workers| && workers[w].Idle? && cancelled
      modifies this
      ensures Valid() && State() == Q.StopAndExit(old(State()), w)
    {
      ReachableOneMore(State(), Q.DoSeeDone(w));
      StopLocked();
      workers := workers[w := Q.Exited];
    }

    /** The section after the receive: the lane in the worker's hand is there and has an item. */
    method Begin(w: nat)
      requires Valid() && w < |workers| && workers[w].Holding?
      modifies this
      ensures Valid() && Q.CanBegin(old(State()), w) && State() == Q.Begin(old(State()), w)
    {
      WorkersNeverDangle(State(), w);
      ReachableOneMore(State(), Q.DoBegin(w));
      if stopped || cancelled {
        StopLocked();
        workers := workers[w := Q.Exited];
        return;
      }
      var ref := workers[w].lane;
      var lane := lanes[ref.address];
      var item := lane.queue[0];
      lanes := lanes[ref.address := lane.(active := true, queue := lane.queue[1..])];
      workers := workers[w := Q.Sending(ref, item, Q.Calling)];
      begun := begun + [item];
    }

    method Mark(w: nat, p: Q.Progress)
      requires w < |workers| && workers[w].Sending?
      modifies `workers
      ensures State() == Q.Mark(old(State()), w, p)
    {
      workers := workers[w := workers[w].(progress := p)];
    }

    /** The callback is back; the worker looks at its error and at the context. */
    method Return(w: nat, outcome: Q.Outcome)
      requires Valid() && Q.IsSending(State(), w, Q.Calling)
      modifies `workers
      ensures Valid() && State() == Q.Return(old(State()), w, outcome)
    {
      ReachableOneMore(State(), Q.DoReturn(w, outcome));
      Mark(w, if outcome.Broken? && !cancelled then Q.Fatal(outcome.err) else Q.Settled);
    }

    /** fatalOnce. The send to the error channel finds room. */
    method ReportFatal(w: nat)
      requires Valid() && w < |workers| && workers[w].Sending? && workers[w].progress.Fatal?
      modifies this
      ensures Valid() && |errors| <= 1 && State() == Q.ReportFatal(old(State()), w)
    {
      ReachableOneMore(State(), Q.DoFatal(w));
      SendsNeverBlock(State(), Q.DoFatal(w));
      var err := workers[w].progress.err;
      if !fatalDone {
        StopLocked();
        errors := errors + [err];
        fatalDone := true;
      }
      Mark(w, Q.Settled);
    }

    /** The section after the callback. The send to the ready channel, if any, finds room. */
    method End(w: nat)
      requires Valid() && Q.IsSending(State(), w, Q.Settled)
      modifies this
      ensures Valid() && |ready| <= maxTargets && Q.CanEnd(old(State()), w) && State() == Q.End(old(State()), w)
    {
      WorkersNeverDangle(State(), w);
      ReachableOneMore(State(), Q.DoEnd(w));
      SendsNeverBlock(State(), Q.DoEnd(w));
      Settle(w);
    }

    method Settle(w: nat)
      requires Q.CanEnd(State(), w)
      modifies this
      ensures State() == Q.End(old(State()), w)
    {
      var ref, item := workers[w].lane, workers[w].item;
      var lane := lanes[ref.address];
      lane := lane.(packets := lane.packets - 1, bytes := lane.bytes - item.charge, active := false);
      packets := packets - 1;
      bytes := bytes - item.charge;
      if stopped || cancelled || lane.queue == [] {
        lane := DiscardQueued(lane);
        lanes := lanes - {item.address};
      } else {
        lanes := lanes[ref.address := lane];
        ready := ready + [ref];
      }
      workers := workers[w := Q.Idle];
    }
  }
}
