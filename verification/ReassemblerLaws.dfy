/** What a reassembler does with each fragment, and which fragments a completed message may come from. */
module ReassemblerLaws {
  import opened Basics
  import opened MapSums
  import opened Datagram
  import opened Reassembler
  import opened ReassemblerProofs

  // ---- one fragment ----

  /** An unfinished message whose time is not up. */
  ghost predicate Lives(r: Store, k: Key, now: int) { k in r.messages && now < r.messages[k].createdAt + r.ttl }

  /** From `r` to `q` nothing but the expired messages and the one under `k` is touched. */
  ghost predicate OthersLive(r: Store, q: Store, k: Key, now: int) {
    forall j: Key :: j != k ==>
      && (j in q.messages <==> Lives(r, j, now)) && (j in q.messages ==> q.messages[j] == r.messages[j])
  }

  /** The fragment contradicts what has been received under its key. */
  ghost predicate Clashes(a: Assembly, f: Fragment) {
    || a.flags != f.flags || a.address != f.address || a.count != f.count
    || (f.index in a.parts && a.parts[f.index] != f.payload)
  }

  lemma ExpireIsExact(r: Store, now: int)
    ensures var q := Expire(r, now);
      forall j: Key :: (j in q.messages <==> Lives(r, j, now)) && (j in q.messages ==> q.messages[j] == r.messages[j])
  {
  }

  /** A contradiction is a conflict and purges everything received under its key, and nothing else. */
  lemma ConflictPurges(ok: Syntax, r: Store, f: Fragment, now: int)
    requires Inv(r) && Check(ok, f) == None && Lives(r, KeyOf(f), now) && Clashes(r.messages[KeyOf(f)], f)
    ensures var (q, outcome) := Add(ok, r, f, now);
            outcome == Failed(Conflict) && KeyOf(f) !in q.messages && OthersLive(r, q, KeyOf(f), now)
  {
    ExpireIsExact(r, now);
  }

  /** Neither the table nor the bytes in it would stay within bounds; `live` is the table without what has expired. */
  ghost predicate NoRoomFor(live: Store, bytes: int) { Sum(live.messages, Size) + bytes > live.maxBytes }

  /** An assembly with one more part. */
  ghost function Grown(a: Assembly, f: Fragment): Assembly {
    a.(parts := a.parts[f.index := f.payload], bytes := a.bytes + |f.payload|)
  }

  ghost function Started(f: Fragment, now: int): Assembly {
    Assembly(f.flags, f.address, f.count, now, map[f.index := f.payload], |f.payload|)
  }

  /** What becomes of the message under the fragment's key: the outcome, and what is left of it. */
  ghost function Verdict(live: Store, f: Fragment, now: int): (Outcome, Option<Assembly>) {
    var k := KeyOf(f);
    if k !in live.messages then
      if f.count == 1 then (Complete(Message(f.flags, f.session, f.message, f.address, f.payload)), None)
      else if |live.messages| >= live.maxMessages || NoRoomFor(live, |f.payload|) then (Failed(Capacity), None)
      else (Incomplete, Some(Started(f, now)))
    else
      var a := live.messages[k];
      if Clashes(a, f) then (Failed(Conflict), None)
      else if f.index in a.parts then (Incomplete, Some(a))
      else if Sum(a.parts, Length) + |f.payload| > MAX_PAYLOAD then (Failed(PayloadTooLarge), None)
      else if NoRoomFor(live, |f.payload|) then (Failed(Capacity), Some(a))
      else if |a.parts| + 1 < a.count then (Incomplete, Some(Grown(a, f)))
      else (Complete(Message(f.flags, f.session, f.message, f.address, Whole(Grown(a, f)))), None)
  }

  /** The parts of a full assembly in index order. */
  ghost function Whole(a: Assembly): Bytes {
    match Join(a.parts, a.count) case Some(payload) => payload case None => []
  }

  ghost function Held(r: Store, k: Key): Option<Assembly> { if k in r.messages then Some(r.messages[k]) else None }

  ghost predicate SameOthers(r: Store, q: Store, k: Key) {
    forall j: Key :: j != k ==> Held(q, j) == Held(r, j)
  }

  lemma FinishIsExact(s: Store, k: Key, f: Fragment)
    requires k in s.messages && |s.messages[k].parts| <= s.messages[k].count
    requires forall i <- s.messages[k].parts :: i < s.messages[k].count
    requires s.messages[k].flags == f.flags && s.messages[k].address == f.address
    ensures var (q, outcome), a := Finish(s, k, f), s.messages[k];
      && SameOthers(s, q, k)
      && if |a.parts| < a.count then outcome == Incomplete && Held(q, k) == Some(a)
         else outcome == Complete(Message(f.flags, f.session, f.message, f.address, Whole(a))) && Held(q, k) == None
  {
    if |s.messages[k].parts| == s.messages[k].count {
      NoPartMissing(s.messages[k].parts, s.messages[k].count, s.messages[k].count);
    }
  }

  lemma ExtendIsExact(live: Store, f: Fragment, now: int)
    requires Inv(live) && f.index < f.count && KeyOf(f) in live.messages && SameMessage(live.messages[KeyOf(f)], f)
    ensures var (q, outcome) := Extend(live, KeyOf(f), f);
            SameOthers(live, q, KeyOf(f)) && (outcome, Held(q, KeyOf(f))) == Verdict(live, f, now)
  {
    var a := live.messages[KeyOf(f)];
    assert AssemblyOk(a);
    if f.index !in a.parts && |f.payload| <= MAX_PAYLOAD - a.bytes && |f.payload| <= live.maxBytes - live.buffered {
      GrowIsExact(live, f, now);
    }
  }

  lemma GrowIsExact(live: Store, f: Fragment, now: int)
    requires KeyOf(f) in live.messages && AssemblyOk(live.messages[KeyOf(f)])
    requires f.index < f.count && SameMessage(live.messages[KeyOf(f)], f) && f.index !in live.messages[KeyOf(f)].parts
    ensures var k := KeyOf(f);
      var (q, outcome), a := Finish(Stored(live, k, live.messages[k], f), k, f), Grown(live.messages[k], f);
      && SameOthers(live, q, k) && |a.parts| == |live.messages[k].parts| + 1
      && if |a.parts| < a.count then outcome == Incomplete && Held(q, k) == Some(a)
         else outcome == Complete(Message(f.flags, f.session, f.message, f.address, Whole(a))) && Held(q, k) == None
  {
    var k := KeyOf(f);
    var s := Stored(live, k, live.messages[k], f);
    assert s.messages[k].parts.Keys == live.messages[k].parts.Keys + {f.index};
    FinishIsExact(s, k, f);
  }

  /** The first part of a message that needs more. */
  lemma StartIsExact(live: Store, f: Fragment, now: int)
    requires Inv(live) && 1 < f.count && f.index < f.count && KeyOf(f) !in live.messages
    requires |f.payload| <= MAX_PAYLOAD && |f.payload| <= live.maxBytes - live.buffered
    ensures var (q, outcome) := Extend(Opened(live, KeyOf(f), f, now), KeyOf(f), f);
            SameOthers(live, q, KeyOf(f)) && outcome == Incomplete && Held(q, KeyOf(f)) == Some(Started(f, now))
  {
    var k := KeyOf(f);
    var r := Opened(live, k, f, now);
    var s := Stored(r, k, r.messages[k], f);
    assert s.messages[k] == Started(f, now);
    assert s.messages[k].parts.Keys == {f.index};
    FinishIsExact(s, k, f);
  }

  lemma PlaceIsExact(live: Store, f: Fragment, now: int)
    requires Inv(live) && f.index < f.count && |f.payload| <= MAX_PAYLOAD
    ensures var (q, outcome) := Place(live, f, now);
            SameOthers(live, q, KeyOf(f)) && (outcome, Held(q, KeyOf(f))) == Verdict(live, f, now)
  {
    var k := KeyOf(f);
    if k in live.messages {
      if SameMessage(live.messages[k], f) { ExtendIsExact(live, f, now); }
    } else if f.count > 1 && |live.messages| < live.maxMessages && |f.payload| <= live.maxBytes - live.buffered {
      StartIsExact(live, f, now);
    }
  }

  /** An invalid fragment changes nothing.  A valid one drops what has expired, and decides about its own message only:
      the outcome and what is left of that message are exactly the verdict. */
  lemma AddIsExact(ok: Syntax, r: Store, f: Fragment, now: int)
    requires Inv(r)
    ensures var (q, outcome) := Add(ok, r, f, now);
      match Check(ok, f)
      case Some(e) => q == r && outcome == Failed(e)
      case None =>
        OthersLive(r, q, KeyOf(f), now) && (outcome, Held(q, KeyOf(f))) == Verdict(Expire(r, now), f, now)
  {
    if Check(ok, f) == None {
      var live := Expire(r, now);
      RemoveAllInv(r, set k | k in r.messages && Expired(r, r.messages[k], now));
      ExpireIsExact(r, now);
      PlaceIsExact(live, f, now);
      var q := Add(ok, r, f, now).0;
      forall j: Key | j != KeyOf(f)
        ensures (j in q.messages <==> Lives(r, j, now)) && (j in q.messages ==> q.messages[j] == r.messages[j])
      {
        assert Held(q, j) == Held(live, j);
      }
    }
  }

  // ---- where a completed message comes from ----

  /** Whether operation `op` ends what was collected under `k` before it: by expiry, or with its session. */
  ghost predicate Ends(ok: Syntax, r: Store, op: Op, k: Key) {
    match op
    case OpAdd(f, now) => Check(ok, f) == None && !Lives(r, k, now)
    case OpExpire(now) => !Lives(r, k, now)
    case OpDiscard(session) => k.session == session
  }

  /** The fragments that arrived under `k` since its last expiry, discard, purge or completion, `op` included. */
  ghost function Since(ok: Syntax, r: Store, op: Op, k: Key, log: set<Fragment>): set<Fragment> {
    var kept := if Ends(ok, r, op, k) then {} else log;
    if IsAdd(op, k) && Check(ok, op.fragment) == None then kept + {op.fragment} else kept
  }

  /** A purge or a completion starts again from nothing. */
  ghost predicate Settles(outcome: Outcome) {
    outcome.Complete? || outcome == Failed(Conflict) || outcome == Failed(PayloadTooLarge)
  }

  ghost function LogAfter(ok: Syntax, r: Store, op: Op, k: Key, log: set<Fragment>, outcome: Outcome): set<Fragment> {
    if IsAdd(op, k) && Check(ok, op.fragment) == None && Settles(outcome) then {} else Since(ok, r, op, k, log)
  }

  /** Each message completed under `k` is made of fragments that arrived under `k` since its last expiry, discard,
      purge or completion. */
  ghost predicate CompletedFresh(ok: Syntax, r: Store, ops: seq<Op>, k: Key, log: set<Fragment>)
    decreases |ops|
  {
    ops != [] ==>
      var (q, outcome) := Step(ok, r, ops[0]);
      && (IsAdd(ops[0], k) && outcome.Complete? ==>
            MessageKey(outcome.message) == k && MadeOf(outcome.message, Since(ok, r, ops[0], k, log)))
      && CompletedFresh(ok, q, ops[1..], k, LogAfter(ok, r, ops[0], k, log, outcome))
  }

  /** What is stored under `k` was delivered as fragments in `log`. */
  ghost predicate GenuineAt(r: Store, k: Key, log: set<Fragment>) {
    k in r.messages ==>
      forall i <- r.messages[k].parts :: Origin(k, r.messages[k], i, r.messages[k].parts[i]) in log
  }

  ghost predicate GenuineParts(k: Key, a: Assembly, log: set<Fragment>) {
    forall i <- a.parts :: Origin(k, a, i, a.parts[i]) in log
  }

  lemma SinglePart(f: Fragment)
    requires f.count == 1 && f.index == 0
    ensures MadeOf(Message(f.flags, f.session, f.message, f.address, f.payload), {f})
  {
    var parts: map<nat, Bytes> := map[0 := f.payload];
    assert Join(parts, 0) == Some([]);
    assert [] + f.payload == f.payload;
    assert MadeFrom(Message(f.flags, f.session, f.message, f.address, f.payload), {f}, 1, parts);
  }

  lemma MadeOfMore(m: Message, log: set<Fragment>, more: set<Fragment>)
    requires MadeOf(m, log) && log <= more
    ensures MadeOf(m, more)
  {
    var n: nat, parts: map<nat, Bytes> :| MadeFrom(m, log, n, parts);
    assert MadeFrom(m, more, n, parts);
  }

  lemma GrownIsMade(k: Key, a: Assembly, f: Fragment, log: set<Fragment>)
    requires AssemblyOk(a) && GenuineParts(k, a, log) && KeyOf(f) == k && !Clashes(a, f)
    requires f.index < f.count && f.index !in a.parts && f.flags <= 1
    ensures GenuineParts(k, Grown(a, f), log + {f})
    ensures |a.parts| + 1 == a.count ==>
      MadeOf(Message(f.flags, f.session, f.message, f.address, Whole(Grown(a, f))), log + {f})
  {
    var g := Grown(a, f);
    assert g.parts.Keys == a.parts.Keys + {f.index};
    if |a.parts| + 1 == a.count {
      NoPartMissing(g.parts, g.count, g.count);
      assert MadeFrom(Message(f.flags, f.session, f.message, f.address, Whole(g)), log + {f}, g.count, g.parts);
    }
  }

  /** A completed message, or what is left of one, is made of fragments in `log`. */
  ghost predicate Sound(k: Key, outcome: Outcome, held: Option<Assembly>, log: set<Fragment>) {
    && (outcome.Complete? ==> MessageKey(outcome.message) == k && MadeOf(outcome.message, log))
    && (held.Some? ==> GenuineParts(k, held.value, log))
    && (Settles(outcome) ==> held == None)
  }

  lemma VerdictIsSound(ok: Syntax, live: Store, f: Fragment, now: int, log: set<Fragment>)
    requires Inv(live) && Check(ok, f) == None && GenuineAt(live, KeyOf(f), log)
    ensures var (outcome, held) := Verdict(live, f, now); Sound(KeyOf(f), outcome, held, log + {f})
  {
    var k := KeyOf(f);
    if k in live.messages {
      KnownIsSound(ok, live, f, now, log);
    } else if f.count == 1 {
      SinglePart(f);
      MadeOfMore(Message(f.flags, f.session, f.message, f.address, f.payload), {f}, log + {f});
    }
  }

  lemma KnownIsSound(ok: Syntax, live: Store, f: Fragment, now: int, log: set<Fragment>)
    requires Inv(live) && Check(ok, f) == None && GenuineAt(live, KeyOf(f), log) && KeyOf(f) in live.messages
    ensures var (outcome, held) := Verdict(live, f, now); Sound(KeyOf(f), outcome, held, log + {f})
  {
    var a := live.messages[KeyOf(f)];
    assert AssemblyOk(a) && GenuineParts(KeyOf(f), a, log);
    if !Clashes(a, f) && f.index !in a.parts { GrownIsMade(KeyOf(f), a, f, log); }
  }

  /** The step keeps the log genuine, and what it completes is in it. */
  ghost predicate Fresh(ok: Syntax, r: Store, op: Op, q: Store, outcome: Outcome, k: Key, log: set<Fragment>) {
    && GenuineAt(q, k, LogAfter(ok, r, op, k, log, outcome))
    && (IsAdd(op, k) && outcome.Complete? ==>
          MessageKey(outcome.message) == k && MadeOf(outcome.message, Since(ok, r, op, k, log)))
  }

  lemma OwnIsFresh(ok: Syntax, r: Store, f: Fragment, now: int, q: Store, outcome: Outcome, log: set<Fragment>)
    requires Check(ok, f) == None
    requires Sound(KeyOf(f), outcome, Held(q, KeyOf(f)), (if Lives(r, KeyOf(f), now) then log else {}) + {f})
    ensures Fresh(ok, r, OpAdd(f, now), q, outcome, KeyOf(f), log)
  {
  }

  lemma LiveIsGenuine(r: Store, now: int, k: Key, log: set<Fragment>)
    requires Inv(r) && GenuineAt(r, k, log)
    ensures Inv(Expire(r, now)) && GenuineAt(Expire(r, now), k, if Lives(r, k, now) then log else {})
  {
    RemoveAllInv(r, set k | k in r.messages && Expired(r, r.messages[k], now));
    ExpireIsExact(r, now);
  }

  lemma OtherIsFresh(ok: Syntax, r: Store, f: Fragment, now: int, q: Store, outcome: Outcome, k: Key,
                     log: set<Fragment>)
    requires GenuineAt(r, k, log) && KeyOf(f) != k
    requires match Check(ok, f) case Some(_) => q == r case None => OthersLive(r, q, KeyOf(f), now)
    ensures Fresh(ok, r, OpAdd(f, now), q, outcome, k, log)
  {
  }

  lemma StepIsFresh(ok: Syntax, r: Store, op: Op, k: Key, log: set<Fragment>)
    requires Inv(r) && GenuineAt(r, k, log)
    ensures var (q, outcome) := Step(ok, r, op); Fresh(ok, r, op, q, outcome, k, log)
  {
    match op
    case OpAdd(f, now) =>
      var (q, outcome) := Add(ok, r, f, now);
      AddIsExact(ok, r, f, now);
      if KeyOf(f) != k { OtherIsFresh(ok, r, f, now, q, outcome, k, log); }
      else if Check(ok, f) == None {
        LiveIsGenuine(r, now, k, log);
        VerdictIsSound(ok, Expire(r, now), f, now, if Lives(r, k, now) then log else {});
        OwnIsFresh(ok, r, f, now, q, outcome, log);
      }
    case OpExpire(now) => ExpireIsExact(r, now);
    case OpDiscard(session) =>
  }

  /** Fragments from different datagrams are never combined: over every run, whatever arrives, a completed message is
      made only of fragments that came in after the last conflict, expiry or discard under its key. */
  lemma {:induction false} CompletionsAreFresh(ok: Syntax, r: Store, ops: seq<Op>, k: Key, log: set<Fragment>)
    requires Inv(r) && GenuineAt(r, k, log)
    ensures CompletedFresh(ok, r, ops, k, log)
    decreases |ops|
  {
    if ops == [] {
    } else {
      StepIsFresh(ok, r, ops[0], k, log);
      StepInv(ok, r, ops[0]);
      var (q, outcome) := Step(ok, r, ops[0]);
      CompletionsAreFresh(ok, q, ops[1..], k, LogAfter(ok, r, ops[0], k, log, outcome));
    }
  }
}
