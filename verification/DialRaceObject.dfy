/** dialApproved as the source writes it: local variables changed by closures inside a select loop. */
module DialRaceObject {
  import opened Basics
  import R = DialRace
  import O = DialOutcome

  class DialLoop {
    const total: nat
    var next: nat
    var inFlight: nat
    var timer: bool
    var attempts: seq<R.Attempt>
    var results: seq<R.Item>
    var main: R.Main
    var draining: nat
    var ctxCancelled: bool
    var dialCancelled: bool
    var dialErrors: nat
    ghost var dialled: multiset<nat>
    ghost var closed: multiset<nat>

    ghost function State(): R.Race
      reads this
    {
      R.Race(total, next, inFlight, timer, attempts, results, main, draining, ctxCancelled, dialCancelled,
             dialErrors, dialled, closed)
    }

    /** Between its turns the loop is in a state that some interleaving reaches. */
    ghost predicate Valid()
      reads this
    {
      R.Reachable(State())
    }

    constructor (addresses: nat)
      requires addresses > 0
      ensures Valid() && State() == R.Init(addresses)
    {
      total, next, inFlight, timer := addresses, 0, 0, false;
      attempts, results, main, draining := [], [], R.Racing, 0;
      ctxCancelled, dialCancelled, dialErrors := false, false, 0;
      dialled, closed := multiset{}, multiset{};
      new;
      StartNext();
      ArmTimer();
      R.InitIsReachable(addresses);
    }

    method StartNext()
      modifies `next, `inFlight, `attempts
      ensures State() == R.StartNext(old(State()))
    {
      next, inFlight, attempts := next + 1, inFlight + 1, attempts + [R.Dialing];
    }

    method ArmTimer()
      modifies `timer
      ensures State() == R.ArmTimer(old(State()))
    {
      if inFlight == 1 && next < total && !timer { timer := true; }
    }

    /** cancel, stopTimer, drain and return. */
    method Leave(how: R.Main)
      modifies `main, `dialCancelled, `timer, `draining
      ensures State() == R.Leave(old(State()), how)
    {
      dialCancelled, timer, draining, main := true, false, inFlight, how;
    }

    /** The arm of the select that receives a result. */
    method Receive()
      requires results != [] && inFlight > 0
      modifies this
      ensures State() == R.Receive(old(State()))
    {
      var result := TakeFirst();
      match result {
        case Conn(i) => ReceiveConn(i);
        case Fault => ReceiveFault();
      }
    }

    method ReceiveConn(i: nat)
      modifies this
      ensures State() == R.ReceiveConn(old(State()), i)
    {
      if ctxCancelled {
        closed := closed + multiset{i};
        Leave(R.Cancelled);
      } else {
        Leave(R.Won(i));
      }
    }

    method ReceiveFault()
      modifies this
      ensures State() == R.ReceiveFault(old(State()))
    {
      NoteFault();
      StartAnother();
      ArmTimer();
      EndIfIdle();
    }

    method NoteFault()
      modifies `dialErrors, `timer
      ensures State() == R.NoteFault(old(State()))
    {
      dialErrors, timer := dialErrors + 1, false;
    }

    method StartAnother()
      modifies `next, `inFlight, `attempts
      ensures State() == R.StartAnother(old(State()))
    {
      if next < total { StartNext(); }
    }

    method EndIfIdle()
      modifies `main, `dialCancelled
      ensures State() == R.EndIfIdle(old(State()))
    {
      if inFlight == 0 { main, dialCancelled := R.Exhausted, true; }
    }

    method TakeFirst() returns (result: R.Item)
      requires results != [] && inFlight > 0
      modifies `results, `inFlight
      ensures State() == R.TakeFirst(old(State())) && result == old(results)[0]
    {
      result := results[0];
      results, inFlight := results[1..], inFlight - 1;
    }

    /** The arm of the fallback timer. */
    method FireTimer()
      requires main == R.Racing && timer
      modifies this
      ensures State() == R.Apply(old(State()), R.MainTimer)
    {
      timer := false;
      if next < total && inFlight < R.SLOTS { StartNext(); }
      ArmTimer();
    }

    /** One step of a dial goroutine. */
    method Worker(step: R.Step)
      requires R.Enabled(State(), step)
      requires step.WorkerFails? || step.WorkerOpens? || step.WorkerChecks? || step.WorkerSends?
      modifies `attempts, `results, `dialled, `closed
      ensures State() == R.Apply(old(State()), step)
    {
      match step {
        case WorkerFails(w) =>
          attempts := attempts[w := R.Failing];
        case WorkerOpens(w) =>
          attempts, dialled := attempts[w := R.Opened], dialled + multiset{w};
        case WorkerChecks(w) =>
          if dialCancelled {
            attempts, closed := attempts[w := R.Failing], closed + multiset{w};
          } else {
            attempts := attempts[w := R.Approved];
          }
        case WorkerSends(w) =>
          results := results + [if attempts[w] == R.Approved then R.Conn(w) else R.Fault];
          attempts := attempts[w := R.Delivered];
      }
    }

    /** One turn of the drain goroutine. */
    method Drain()
      requires R.Enabled(State(), R.DrainReceives)
      modifies `results, `draining, `closed
      ensures State() == R.Apply(old(State()), R.DrainReceives)
    {
      if results[0].Conn? { closed := closed + multiset{results[0].index}; }
      results, draining := results[1..], draining - 1;
    }

    method CancelByCaller()
      modifies `ctxCancelled, `dialCancelled
      ensures State() == R.Apply(old(State()), R.CallerCancels)
    {
      ctxCancelled, dialCancelled := true, true;
    }

    /** Does what is wished, if it can happen now. */
    method Advance(step: R.Step) returns (taken: bool)
      requires Valid()
      modifies this
      ensures Valid() && taken == R.Enabled(old(State()), step)
      ensures State() == if taken then R.Apply(old(State()), step) else old(State())
    {
      taken := Possible(step);
      if !taken { return; }
      R.ReachableOneMore(State(), step);
      match step {
        case MainReceives => Receive();
        case MainTimer => FireTimer();
        case MainSeesCancel => Leave(R.Cancelled);
        case DrainReceives => Drain();
        case CallerCancels => CancelByCaller();
        case _ => Worker(step);
      }
    }

    method Possible(step: R.Step) returns (b: bool)
      ensures b == R.Enabled(State(), step)
    {
      match step {
        case WorkerFails(w) => return w < |attempts| && attempts[w] == R.Dialing;
        case WorkerOpens(w) => return w < |attempts| && attempts[w] == R.Dialing;
        case WorkerChecks(w) => return w < |attempts| && attempts[w] == R.Opened;
        case WorkerSends(w) => return w < |attempts| && attempts[w] in {R.Approved, R.Failing};
        case MainReceives => return main == R.Racing && results != [] && inFlight > 0;
        case MainTimer => return main == R.Racing && timer;
        case MainSeesCancel => return main == R.Racing && ctxCancelled;
        case DrainReceives => return main != R.Racing && draining > 0 && results != [];
        case CallerCancels => return true;
      }
    }
  }

  /** The select loop and the goroutines, driven by `wishes`: at each turn the next wish happens if it can. The
      loop's variables are those of the step system driven the same way. */
  method DialApproved(addresses: nat, wishes: seq<R.Step>) returns (loop: DialLoop)
    requires addresses > 0
    ensures fresh(loop) && loop.Valid() && loop.State() == R.Driven(R.Init(addresses), wishes)
    ensures loop.main != R.Racing && loop.draining == 0 ==> loop.dialled == loop.closed + R.Returned(loop.main)
    ensures loop.main == R.Exhausted && !loop.ctxCancelled ==> loop.dialled == multiset{}
    ensures loop.main != R.Racing && loop.draining == 0 && !loop.ctxCancelled && loop.dialled != multiset{} ==>
      loop.main.Won? && loop.closed[loop.main.index] == 0
  {
    loop := new DialLoop(addresses);
    for i := 0 to |wishes|
      invariant fresh(loop) && loop.Valid() && loop.State() == R.Driven(R.Init(addresses), wishes[..i])
    {
      assert wishes[..i + 1][..i] == wishes[..i];
      var taken := loop.Advance(wishes[i]);
    }
    assert wishes[..|wishes|] == wishes;
    if loop.main != R.Racing && loop.draining == 0 {
      R.EveryConnectionAccountedFor(loop.State());
      if !loop.ctxCancelled && loop.dialled != multiset{} { O.OpenedMeansWon(loop.State()); }
    }
    if loop.main == R.Exhausted && !loop.ctxCancelled { O.FailureMeansNothingOpened(loop.State()); }
  }
}
