/** From Encode to AddFrame: reassembly over the frames on the wire. */
module Delivery {
  import opened Basics
  import opened Datagram
  import opened Reassembler
  import opened ReassemblerProofs

  /** What happens to the reassembler: AddFrame, Expire or DiscardSession. */
  datatype Input = Arrives(frame: Bytes, now: int) | Sweep(now: int) | Drop(session: nat)

  /** AddFrame leaves the store alone when a frame does not parse. */
  ghost function StepInput(ok: Syntax, r: Store, input: Input): (Store, Outcome) {
    match input
    case Arrives(frame, now) =>
      (match Parse(ok, frame) case Err(e) => (r, Failed(e)) case Ok(f) => Add(ok, r, f, now))
    case Sweep(now) => (Expire(r, now), Incomplete)
    case Drop(session) => (DiscardSession(r, session), Incomplete)
  }

  ghost function AfterInputs(ok: Syntax, r: Store, inputs: seq<Input>): Store
    decreases |inputs|
  {
    if inputs == [] then r else AfterInputs(ok, StepInput(ok, r, inputs[0]).0, inputs[1..])
  }

  /** A frame that parses to a fragment under this key. */
  predicate IsFor(ok: Syntax, input: Input, k: Key) {
    input.Arrives? && Parse(ok, input.frame).Ok? && KeyOf(Parse(ok, input.frame).value) == k
  }

  /** The messages that AddFrame returns under this key, in order. */
  ghost function Received(ok: Syntax, r: Store, inputs: seq<Input>, k: Key): seq<Message>
    decreases |inputs|
  {
    if inputs == [] then []
    else
      var (next, outcome) := StepInput(ok, r, inputs[0]);
      (if IsFor(ok, inputs[0], k) && outcome.Complete? then [outcome.message] else [])
      + Received(ok, next, inputs[1..], k)
  }

  // ---- the conditions of a delivery ----

  /** Within one lifetime from `lo`, no discard of our session, and under our key only our own frames. */
  ghost predicate Harmless(ok: Syntax, input: Input, m: Message, frames: seq<Bytes>, lo: int, ttl: int) {
    match input
    case Arrives(frame, now) => lo <= now < lo + ttl && (IsFor(ok, input, MessageKey(m)) ==> frame in frames)
    case Sweep(now) => lo <= now < lo + ttl
    case Drop(session) => session != m.session
  }

  /** No frame of ours is refused for capacity. */
  ghost predicate RoomForAll(ok: Syntax, r: Store, inputs: seq<Input>, k: Key)
    decreases |inputs|
  {
    inputs != [] ==>
      && (IsFor(ok, inputs[0], k) ==> StepInput(ok, r, inputs[0]).1 != Failed(Capacity))
      && RoomForAll(ok, StepInput(ok, r, inputs[0]).0, inputs[1..], k)
  }

  predicate Arrived(inputs: seq<Input>, frame: Bytes) {
    exists j :: 0 <= j < |inputs| && inputs[j].Arrives? && inputs[j].frame == frame
  }

  /** Every frame has arrived. */
  predicate AllArrived(inputs: seq<Input>, frames: seq<Bytes>) {
    forall i :: 0 <= i < |frames| ==> Arrived(inputs, frames[i])
  }

  /** A frame of ours, first or repeated, comes only while some frame is missing. */
  predicate NoneTooLate(inputs: seq<Input>, frames: seq<Bytes>) {
    forall j :: 0 <= j < |inputs| && inputs[j].Arrives? && inputs[j].frame in frames ==>
                  !AllArrived(inputs[..j], frames)
  }

  /** What arrives under this key is one of these frames. */
  predicate OursOnly(ok: Syntax, inputs: seq<Input>, k: Key, frames: seq<Bytes>) {
    forall j :: 0 <= j < |inputs| && IsFor(ok, inputs[j], k) ==> inputs[j].frame in frames
  }

  ghost predicate AllHarmless(ok: Syntax, inputs: seq<Input>, m: Message, frames: seq<Bytes>, lo: int, ttl: int) {
    forall j :: 0 <= j < |inputs| ==> Harmless(ok, inputs[j], m, frames, lo, ttl)
  }

  // ---- as operations on fragments ----

  /** A frame that does not parse acts like a fragment that is not valid, under a key that is not ours. */
  ghost function AsOp(ok: Syntax, input: Input, m: Message): Op {
    match input
    case Arrives(frame, now) =>
      (match Parse(ok, frame)
       case Ok(f) => OpAdd(f, now)
       case Err(_) => OpAdd(Fragment(0, m.session + 1, 0, 0, 0, [], []), now))
    case Sweep(now) => OpExpire(now)
    case Drop(session) => OpDiscard(session)
  }

  ghost function AsOps(ok: Syntax, inputs: seq<Input>, m: Message): (ops: seq<Op>)
    ensures |ops| == |inputs| && forall j :: 0 <= j < |ops| ==> ops[j] == AsOp(ok, inputs[j], m)
  {
    seq(|inputs|, j requires 0 <= j < |inputs| => AsOp(ok, inputs[j], m))
  }

  lemma SameStep(ok: Syntax, r: Store, input: Input, m: Message)
    ensures StepInput(ok, r, input).0 == Step(ok, r, AsOp(ok, input, m)).0
    ensures IsFor(ok, input, MessageKey(m)) <==> IsAdd(AsOp(ok, input, m), MessageKey(m))
    ensures IsFor(ok, input, MessageKey(m)) ==> StepInput(ok, r, input).1 == Step(ok, r, AsOp(ok, input, m)).1
  {
  }

  lemma {:induction false} SameRun(ok: Syntax, r: Store, inputs: seq<Input>, m: Message)
    ensures AfterInputs(ok, r, inputs) == After(ok, r, AsOps(ok, inputs, m))
    ensures Received(ok, r, inputs, MessageKey(m)) == Completions(ok, r, AsOps(ok, inputs, m), MessageKey(m))
    ensures RoomForAll(ok, r, inputs, MessageKey(m)) <==> NotRefused(ok, r, AsOps(ok, inputs, m), MessageKey(m))
    decreases |inputs|
  {
    if inputs == [] {
    } else {
      SameStep(ok, r, inputs[0], m);
      assert AsOps(ok, inputs, m)[1..] == AsOps(ok, inputs[1..], m);
      SameRun(ok, StepInput(ok, r, inputs[0]).0, inputs[1..], m);
    }
  }

  lemma {:induction false} GotMember(ops: seq<Op>, k: Key, i: nat)
    ensures i in Got(ops, k) <==> exists j :: 0 <= j < |ops| && IsAdd(ops[j], k) && ops[j].fragment.index == i
    decreases |ops|
  {
    if ops == [] {
    } else {
      GotMember(ops[1..], k, i);
      if i in Got(ops[1..], k) {
        var j :| 0 <= j < |ops[1..]| && IsAdd(ops[1..][j], k) && ops[1..][j].fragment.index == i;
        assert IsAdd(ops[j + 1], k);
      }
      if j :| 0 <= j < |ops| && IsAdd(ops[j], k) && ops[j].fragment.index == i {
        if j > 0 { assert IsAdd(ops[1..][j - 1], k); }
      }
    }
  }

  /** Our frames stand for our parts, one to one. */
  lemma FrameIsPart(ok: Syntax, m: Message, size: int, i: nat)
    requires Encodable(ok, m, size) && i < Count(m, Budget(m, size))
    ensures var frame := Frames(m, Budget(m, size))[i];
            Parse(ok, frame) == Ok(Part(m, Budget(m, size), i)) && KeyOf(Part(m, Budget(m, size), i)) == MessageKey(m)
  {
    EncodedFrameParses(ok, m, size, i);
  }

  lemma GotHasArrived(ok: Syntax, m: Message, size: int, inputs: seq<Input>, i: nat)
    requires Encodable(ok, m, size) && i < Count(m, Budget(m, size))
    requires OursOnly(ok, inputs, MessageKey(m), Frames(m, Budget(m, size)))
    requires i in Got(AsOps(ok, inputs, m), MessageKey(m))
    ensures Arrived(inputs, Frames(m, Budget(m, size))[i])
  {
    var ops, k, frames := AsOps(ok, inputs, m), MessageKey(m), Frames(m, Budget(m, size));
    GotMember(ops, k, i);
    var j :| 0 <= j < |ops| && IsAdd(ops[j], k) && ops[j].fragment.index == i;
    AsOpIsFor(ok, inputs[j], m);
    var i' :| 0 <= i' < |frames| && frames[i'] == inputs[j].frame;
    FrameIsPart(ok, m, size, i');
  }

  lemma AsOpIsFor(ok: Syntax, input: Input, m: Message)
    ensures IsFor(ok, input, MessageKey(m)) <==> IsAdd(AsOp(ok, input, m), MessageKey(m))
    ensures IsFor(ok, input, MessageKey(m)) ==> AsOp(ok, input, m).fragment == Parse(ok, input.frame).value
  {
  }

  lemma ArrivedIsGot(ok: Syntax, m: Message, size: int, inputs: seq<Input>, i: nat)
    requires Encodable(ok, m, size) && i < Count(m, Budget(m, size))
    requires Arrived(inputs, Frames(m, Budget(m, size))[i])
    ensures i in Got(AsOps(ok, inputs, m), MessageKey(m))
  {
    var ops, k, frame := AsOps(ok, inputs, m), MessageKey(m), Frames(m, Budget(m, size))[i];
    FrameIsPart(ok, m, size, i);
    var j :| 0 <= j < |inputs| && inputs[j].Arrives? && inputs[j].frame == frame;
    AsOpIsFor(ok, inputs[j], m);
    assert IsAdd(ops[j], k) && ops[j].fragment.index == i;
    GotMember(ops, k, i);
  }

  lemma CoversIsAllArrived(ok: Syntax, m: Message, size: int, inputs: seq<Input>)
    requires Encodable(ok, m, size)
    requires OursOnly(ok, inputs, MessageKey(m), Frames(m, Budget(m, size)))
    ensures Covers(Got(AsOps(ok, inputs, m), MessageKey(m)), Count(m, Budget(m, size)))
            <==> AllArrived(inputs, Frames(m, Budget(m, size)))
  {
    forall i: nat | i < Count(m, Budget(m, size))
      ensures i in Got(AsOps(ok, inputs, m), MessageKey(m)) <==> Arrived(inputs, Frames(m, Budget(m, size))[i])
    {
      if i in Got(AsOps(ok, inputs, m), MessageKey(m)) { GotHasArrived(ok, m, size, inputs, i); }
      if Arrived(inputs, Frames(m, Budget(m, size))[i]) { ArrivedIsGot(ok, m, size, inputs, i); }
    }
  }

  lemma HarmlessIsFriendly(ok: Syntax, m: Message, size: int, inputs: seq<Input>, lo: int, ttl: int)
    requires Encodable(ok, m, size)
    requires AllHarmless(ok, inputs, m, Frames(m, Budget(m, size)), lo, ttl)
    ensures AllFriendly(AsOps(ok, inputs, m), m, Count(m, Budget(m, size)), Pieces(m, Budget(m, size)), lo, ttl)
  {
    var per := Budget(m, size);
    var ops, n, g := AsOps(ok, inputs, m), Count(m, per), Pieces(m, per);
    forall j | 0 <= j < |ops| ensures Friendly(ops[j], m, n, g, lo, ttl) {
      assert Harmless(ok, inputs[j], m, Frames(m, per), lo, ttl);
      if IsFor(ok, inputs[j], MessageKey(m)) {
        var i :| 0 <= i < n && Frames(m, per)[i] == inputs[j].frame;
        FrameIsPart(ok, m, size, i);
      }
    }
  }

  lemma OnTime(ok: Syntax, m: Message, size: int, inputs: seq<Input>)
    requires Encodable(ok, m, size) && NoneTooLate(inputs, Frames(m, Budget(m, size)))
    requires OursOnly(ok, inputs, MessageKey(m), Frames(m, Budget(m, size)))
    ensures OnlyWhileMissing(AsOps(ok, inputs, m), MessageKey(m), {}, Count(m, Budget(m, size)))
  {
    var ops, k := AsOps(ok, inputs, m), MessageKey(m);
    forall j | 0 <= j < |ops| && IsAdd(ops[j], k) ensures !Covers({} + Got(ops[..j], k), Count(m, Budget(m, size))) {
      AsOpIsFor(ok, inputs[j], m);
      assert ops[..j] == AsOps(ok, inputs[..j], m);
      CoversIsAllArrived(ok, m, size, inputs[..j]);
      assert {} + Got(ops[..j], k) == Got(ops[..j], k);
    }
  }

  lemma HarmlessIsOurs(ok: Syntax, m: Message, frames: seq<Bytes>, inputs: seq<Input>, lo: int, ttl: int)
    requires AllHarmless(ok, inputs, m, frames, lo, ttl)
    ensures OursOnly(ok, inputs, MessageKey(m), frames)
  {
    forall j | 0 <= j < |inputs| && IsFor(ok, inputs[j], MessageKey(m)) ensures inputs[j].frame in frames {
      assert Harmless(ok, inputs[j], m, frames, lo, ttl);
    }
  }

  lemma AsOpsReassemble(ok: Syntax, m: Message, size: int, r: Store, inputs: seq<Input>, ops: seq<Op>, lo: int)
    requires Encodable(ok, m, size) && MessageKey(m) !in r.messages && ops == AsOps(ok, inputs, m)
    requires var per := Budget(m, size); AllFriendly(ops, m, Count(m, per), Pieces(m, per), lo, r.ttl)
    requires RoomForAll(ok, r, inputs, MessageKey(m)) && Covers(Got(ops, MessageKey(m)), Count(m, Budget(m, size)))
    requires OnlyWhileMissing(ops, MessageKey(m), {}, Count(m, Budget(m, size)))
    ensures Received(ok, r, inputs, MessageKey(m)) == [m]
    ensures MessageKey(m) !in AfterInputs(ok, r, inputs).messages
  {
    SameRun(ok, r, inputs, m);
    ReassemblyIsExact(ok, m, size, r, ops, lo);
  }

  /**
   * From end to end: whatever frames Encode makes of a message, fed to AddFrame in any order, repeated at will
   * before completion and interleaved with any other frames, expiry and discards of other sessions, exactly one
   * message comes out under its key, and it is the one that went in.
   */
  lemma FramesReassemble(ok: Syntax, m: Message, size: int, r: Store, inputs: seq<Input>, lo: int)
    requires Encodable(ok, m, size) && MessageKey(m) !in r.messages
    requires AllHarmless(ok, inputs, m, Frames(m, Budget(m, size)), lo, r.ttl)
    requires RoomForAll(ok, r, inputs, MessageKey(m))
    requires AllArrived(inputs, Frames(m, Budget(m, size))) && NoneTooLate(inputs, Frames(m, Budget(m, size)))
    ensures Received(ok, r, inputs, MessageKey(m)) == [m]
    ensures MessageKey(m) !in AfterInputs(ok, r, inputs).messages
  {
    HarmlessIsOurs(ok, m, Frames(m, Budget(m, size)), inputs, lo, r.ttl);
    HarmlessIsFriendly(ok, m, size, inputs, lo, r.ttl);
    CoversIsAllArrived(ok, m, size, inputs);
    OnTime(ok, m, size, inputs);
    AsOpsReassemble(ok, m, size, r, inputs, AsOps(ok, inputs, m), lo);
  }
}
