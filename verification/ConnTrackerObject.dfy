/** The tracker and its connections as the source writes them: two classes that share their state. */
module ConnTrackerObject {
  import opened Basics
  import T = ConnTracker

  class Tracker {
    const max: int
    var accepting: bool
    var conns: set<TrackedConn>
    var zero: nat
    var closes: seq<nat>

    ghost function State(): T.Gate<TrackedConn>
      reads this
    {
      T.Gate(accepting, max, conns, zero, closes)
    }

    ghost predicate Valid()
      reads this
    {
      T.GateInv(State())
    }

    constructor (limit: int)
      ensures Valid() && State() == T.NewGate(limit)
    {
      accepting, max, conns, zero, closes := true, limit, {}, 0, [1];
    }

    method Add(c: TrackedConn) returns (ok: bool)
      requires Valid()
      modifies this
      ensures Valid() && ok == (old(accepting) && |old(conns)| < max)
      ensures State() == if ok then T.Added(old(State()), c) else old(State())
    {
      if !accepting || |conns| >= max { return false; }
      T.AddKeeps(State(), c);
      if |conns| == 0 {
        zero, closes := |closes|, closes + [0];
      }
      conns := conns + {c};
      return true;
    }

    method Remove(c: TrackedConn)
      requires Valid()
      modifies this
      ensures Valid() && State() == T.Removed(old(State()), c)
      ensures conns == old(conns) - {c} && accepting == old(accepting)
    {
      T.RemoveKeeps(State(), c);
      if c !in conns { return; }
      conns := conns - {c};
      if |conns| == 0 {
        closes := closes[zero := closes[zero] + 1];
      }
    }

    method StopAccepting()
      requires Valid()
      modifies this
      ensures Valid() && State() == old(State()).(accepting := false)
    {
      accepting := false;
    }

    /** Whether wait returns at once: the channel it reads is closed. */
    method NothingTracked() returns (done: bool)
      requires Valid()
      ensures done <==> conns == {}
    {
      done := closes[zero] > 0;
    }

    /** closeAll: closes what it finds under the lock, after the lock is released. Between whole calls of
        Close, a tracked connection is not closed. */
    method CloseAll()
      requires Valid() && forall c :: c in conns ==> c.tracker == this && c.Valid() && !c.closed
      modifies this, conns
      ensures Valid() && conns == {} && accepting == old(accepting)
      ensures forall c :: c in old(conns) ==> c.closed && !c.live
    {
      ghost var all := conns;
      var todo := conns;
      while todo != {}
        invariant todo <= all && Valid() && conns == todo && accepting == old(accepting)
        invariant forall c :: c in all ==> c.tracker == this && c.Valid()
        invariant forall c :: c in all - todo ==> c.closed && !c.live
        invariant forall c :: c in todo ==> !c.closed
        decreases |todo|
      {
        var c :| c in todo;
        c.Close();
        todo := todo - {c};
      }
    }
  }

  /** `slot` says that a cancel function is registered; `live` that a context was handed out and is not
      cancelled. */
  class TrackedConn {
    const tracker: Tracker
    var entered: bool
    var closed: bool
    var slot: bool
    var live: bool
    var requested: bool

    ghost predicate Valid()
      reads this
    {
      entered == closed && live == slot && (closed ==> !slot) && (slot ==> requested)
    }

    constructor (owner: Tracker)
      ensures Valid() && tracker == owner && !closed && !requested
    {
      tracker, entered, closed, slot, live, requested := owner, false, false, false, false, false;
    }

    /** connectionContext, called once; the result says whether the context is still live. */
    method ConnectionContext() returns (alive: bool)
      requires Valid() && !requested
      modifies this
      ensures Valid() && requested && closed == old(closed) && alive == !closed && live == alive
    {
      requested := true;
      if closed {
        live := false;
        return false;
      }
      slot, live := true, true;
      return true;
    }

    /** Close: the body of the sync.Once runs at most once. */
    method Close()
      requires Valid() && tracker.Valid()
      modifies this, tracker
      ensures Valid() && tracker.Valid() && closed && !live && requested == old(requested)
      ensures tracker.accepting == old(tracker.accepting)
      ensures if old(closed) then tracker.State() == old(tracker.State())
              else tracker.State() == T.Removed(old(tracker.State()), this)
    {
      if !entered {
        entered := true;
        closed := true;
        var cancel := slot;
        slot := false;
        if cancel { live := false; }
        tracker.Remove(this);
      }
    }
  }
}
