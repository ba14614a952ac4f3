/** The reassembler as the source writes it: a table and a byte counter updated in place. */
module ReassemblerObject {
  import opened Basics
  import opened MapSums
  import opened Datagram
  import R = Reassembler
  import L = ReassemblerLaws
  import opened ReassemblerProofs

  class Reassembler {
    const ok: Syntax
    const maxMessages: nat
    const maxBytes: nat
    const ttl: int
    var messages: map<R.Key, R.Assembly>
    var buffered: int

    ghost function State(): R.Store
      reads this
    {
      R.Store(maxMessages, maxBytes, ttl, messages, buffered)
    }

    constructor (syntax: Syntax, messageLimit: nat, byteLimit: nat, lifetime: int)
      requires messageLimit > 0 && byteLimit > 0 && lifetime > 0
      ensures Some(State()) == R.New(messageLimit, byteLimit, lifetime) && R.Inv(State()) && ok == syntax
    {
      ok, maxMessages, maxBytes, ttl := syntax, messageLimit, byteLimit, lifetime;
      messages, buffered := map[], 0;
    }

    method RemoveLocked(k: R.Key)
      modifies this
      ensures State() == R.Remove(old(State()), k)
    {
      if k in messages {
        buffered := buffered - messages[k].bytes;
        messages := messages - {k};
      }
    }

    /** Removes the listed messages one by one, as the range loops do. */
    method RemoveEach(ks: set<R.Key>)
      requires ks <= messages.Keys
      modifies this
      ensures State() == R.RemoveAll(old(State()), ks)
    {
      ghost var all := messages;
      var todo := ks;
      ghost var done: set<R.Key> := {};
      assert Restrict(all, done) == map[];
      while todo != {}
        invariant todo <= ks && done == ks - todo
        invariant messages == all - done
        invariant buffered == old(buffered) - Sum(Restrict(all, done), R.Size)
      {
        var k :| k in todo;
        SumUpdate(Restrict(all, done), k, all[k], R.Size);
        assert Restrict(all, done + {k}) == Restrict(all, done)[k := all[k]];
        RemoveLocked(k);
        todo, done := todo - {k}, done + {k};
      }
      assert done == ks;
    }

    method ExpireLocked(now: int) returns (expired: nat)
      modifies this
      ensures State() == R.Expire(old(State()), now)
      ensures expired == |old(messages)| - |messages|
    {
      var ks := set k | k in messages && now >= messages[k].createdAt + ttl;
      assert ks == set k | k in messages && R.Expired(State(), messages[k], now);
      ghost var all := messages;
      RemoveEach(ks);
      assert all.Keys == messages.Keys + ks;
      expired := |ks|;
    }

    method DiscardSession(session: nat) returns (discarded: nat)
      modifies this
      ensures State() == R.DiscardSession(old(State()), session)
      ensures discarded == |old(messages)| - |messages|
    {
      var ks := set k | k in messages && k.session == session;
      ghost var all := messages;
      RemoveEach(ks);
      assert all.Keys == messages.Keys + ks;
      discarded := |ks|;
    }

    method Stats(now: int) returns (count: nat, bytes: int)
      requires R.Inv(State())
      modifies this
      ensures State() == R.Expire(old(State()), now) && R.Inv(State())
      ensures count == |messages| <= maxMessages && bytes == Sum(messages, R.Size) <= maxBytes
    {
      StepInv(ok, State(), R.OpExpire(now));
      var expired := ExpireLocked(now);
      return |messages|, buffered;
    }

    /** The copy loop at completion. */
    method JoinParts(parts: map<nat, Bytes>, count: nat) returns (payload: Option<Bytes>)
      ensures payload == R.Join(parts, count)
    {
      var glued: Bytes := [];
      var index := 0;
      while index < count
        invariant 0 <= index <= count && R.Join(parts, index) == Some(glued)
      {
        if index !in parts {
          MissingStaysMissing(parts, index, count);
          return None;
        }
        glued := glued + parts[index];
        index := index + 1;
      }
      return Some(glued);
    }

    method Extend(k: R.Key, f: Fragment) returns (outcome: R.Outcome)
      requires k in messages
      modifies this
      ensures (State(), outcome) == R.Extend(old(State()), k, f)
    {
      var current := messages[k];
      if f.index in current.parts {
        if current.parts[f.index] == f.payload { return R.Incomplete; }
        RemoveLocked(k);
        return R.Failed(Conflict);
      }
      if |f.payload| > MAX_PAYLOAD - current.bytes {
        RemoveLocked(k);
        return R.Failed(PayloadTooLarge);
      }
      if |f.payload| > maxBytes - buffered { return R.Failed(Capacity); }
      current := current.(parts := current.parts[f.index := f.payload], bytes := current.bytes + |f.payload|);
      messages := messages[k := current];
      buffered := buffered + |f.payload|;
      if |current.parts| != current.count { return R.Incomplete; }
      var payload := JoinParts(current.parts, current.count);
      if payload == None { return R.Incomplete; }
      RemoveLocked(k);
      return R.Complete(Message(current.flags, f.session, f.message, current.address, payload.value));
    }

    method Place(f: Fragment, now: int) returns (outcome: R.Outcome)
      modifies this
      ensures (State(), outcome) == R.Place(old(State()), f, now)
    {
      var k := R.KeyOf(f);
      if k in messages && !R.SameMessage(messages[k], f) {
        RemoveLocked(k);
        return R.Failed(Conflict);
      }
      if k !in messages && f.count == 1 {
        return R.Complete(Message(f.flags, f.session, f.message, f.address, f.payload));
      }
      if k !in messages {
        if |messages| >= maxMessages || |f.payload| > maxBytes - buffered { return R.Failed(Capacity); }
        messages := messages[k := R.Assembly(f.flags, f.address, f.count, now, map[], 0)];
      }
      outcome := Extend(k, f);
    }

    method Add(f: Fragment, now: int) returns (outcome: R.Outcome)
      requires R.Inv(State())
      modifies this
      ensures (State(), outcome) == R.Add(ok, old(State()), f, now)
      ensures R.Inv(State())
      ensures Check(ok, f) == None ==>
        && L.OthersLive(old(State()), State(), R.KeyOf(f), now)
        && (outcome, L.Held(State(), R.KeyOf(f))) == L.Verdict(R.Expire(old(State()), now), f, now)
    {
      StepInv(ok, State(), R.OpAdd(f, now));
      L.AddIsExact(ok, State(), f, now);
      var problem := Check(ok, f);
      if problem.Some? { return R.Failed(problem.value); }
      var expired := ExpireLocked(now);
      outcome := Place(f, now);
    }

    method AddFrame(frame: Bytes, now: int) returns (outcome: R.Outcome)
      requires R.Inv(State())
      modifies this
      ensures R.Inv(State())
      ensures Parse(ok, frame).Err? ==> State() == old(State()) && outcome == R.Failed(Parse(ok, frame).error)
      ensures Parse(ok, frame).Ok? ==> (State(), outcome) == R.Add(ok, old(State()), Parse(ok, frame).value, now)
    {
      var parsed := Parse(ok, frame);
      if parsed.Err? { return R.Failed(parsed.error); }
      outcome := Add(parsed.value, now);
    }
  }

  lemma {:induction false} MissingStaysMissing(parts: map<nat, Bytes>, i: nat, n: nat)
    requires i !in parts && i < n
    ensures R.Join(parts, n) == None
  {
    if i == n - 1 {
    } else {
      MissingStaysMissing(parts, i, n - 1);
    }
  }
}
