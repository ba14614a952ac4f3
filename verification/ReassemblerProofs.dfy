/** Resource bounds and end-to-end reassembly, over every sequence of operations. */
module ReassemblerProofs {
  import opened Basics
  import opened MapSums
  import opened Datagram
  import opened Reassembler

  // ---- removal ----

  lemma SizesNonNegative(r: Store)
    requires Inv(r)
    ensures forall k <- r.messages :: Size(r.messages[k]) >= 0
  {
    forall k <- r.messages ensures Size(r.messages[k]) >= 0 {
      assert AssemblyOk(r.messages[k]);
      SumNonNegative(r.messages[k].parts, Length);
    }
  }

  lemma FewerKeys(m: map<Key, Assembly>, ks: set<Key>)
    requires ks <= m.Keys
    ensures |m - ks| <= |m|
  {
    var rest := m - ks;
    assert m.Keys == rest.Keys + ks;
    assert |rest.Keys| + |ks| == |m.Keys|;
  }

  lemma RemoveAllInv(r: Store, ks: set<Key>)
    requires Inv(r) && ks <= r.messages.Keys
    ensures Inv(RemoveAll(r, ks))
  {
    SumSplit(r.messages, ks, Size);
    SizesNonNegative(r);
    SumNonNegative(Restrict(r.messages, ks), Size);
    FewerKeys(r.messages, ks);
  }

  lemma RemoveInv(r: Store, k: Key)
    requires Inv(r)
    ensures Inv(Remove(r, k))
  {
    if k in r.messages {
      SumRemove(r.messages, k, Size);
      SizesNonNegative(r);
      SumNonNegative(r.messages - {k}, Size);
      assert (r.messages - {k}).Keys == r.messages.Keys - {k};
    }
  }

  // ---- pigeonhole ----

  lemma {:induction false} FullKeys(s: set<nat>, n: nat)
    requires (forall i <- s :: i < n) && |s| == n
    ensures forall i :: 0 <= i < n ==> i in s
  {
    if n == 0 {
    } else {
      if n - 1 in s {
        FullKeys(s - {n - 1}, n - 1);
      } else {
        BelowCount(s, n - 1);
      }
    }
  }

  lemma {:induction false} BelowCount(s: set<nat>, n: nat)
    requires forall i <- s :: i < n
    ensures |s| <= n
  {
    if n > 0 {
      BelowCount(s - {n - 1}, n - 1);
    } else {
      assert s == {};
    }
  }

  /** With `count` parts below `count` none is missing: the early return in the copy loop is dead. */
  lemma {:induction false} NoPartMissing(parts: map<nat, Bytes>, count: nat, n: nat)
    requires (forall i <- parts :: i < count) && |parts| == count && n <= count
    ensures Join(parts, n).Some?
  {
    if n == 0 {
    } else {
      FullKeys(parts.Keys, count);
      assert n - 1 in parts.Keys;
      NoPartMissing(parts, count, n - 1);
    }
  }

  // ---- adding ----

  /** An assembly about to receive its next part: its own bounds but possibly no part yet. */
  ghost predicate Receiving(a: Assembly) {
    && |a.parts| < a.count <= MAX_FRAGMENTS
    && (forall i <- a.parts :: i < a.count && a.parts[i] != [])
    && a.bytes == Sum(a.parts, Length) <= MAX_PAYLOAD
  }

  ghost predicate InvExcept(r: Store, k: Key) {
    && r.buffered == Sum(r.messages, Size) <= r.maxBytes
    && |r.messages| <= r.maxMessages
    && (forall j <- r.messages :: j != k ==> AssemblyOk(r.messages[j]))
    && k in r.messages && Receiving(r.messages[k])
  }

  lemma StoredInv(r: Store, k: Key, f: Fragment)
    requires InvExcept(r, k) && f.index < r.messages[k].count && f.index !in r.messages[k].parts && f.payload != []
    requires |f.payload| <= MAX_PAYLOAD - r.messages[k].bytes && |f.payload| <= r.maxBytes - r.buffered
    ensures var s := Stored(r, k, r.messages[k], f);
      && s.buffered == Sum(s.messages, Size) <= s.maxBytes && |s.messages| <= s.maxMessages
      && (forall j <- s.messages :: j != k ==> AssemblyOk(s.messages[j]))
      && k in s.messages && |s.messages[k].parts| == |r.messages[k].parts| + 1
      && (|s.messages[k].parts| < s.messages[k].count ==> AssemblyOk(s.messages[k]))
      && (forall i <- s.messages[k].parts :: i < s.messages[k].count && s.messages[k].parts[i] != [])
  {
    var a := r.messages[k];
    var s := Stored(r, k, a, f);
    SumUpdate(a.parts, f.index, f.payload, Length);
    SumUpdate(r.messages, k, s.messages[k], Size);
    assert s.messages.Keys == r.messages.Keys;
    assert s.messages[k].parts.Keys == a.parts.Keys + {f.index};
  }

  lemma FinishInv(s: Store, k: Key, f: Fragment)
    requires s.buffered == Sum(s.messages, Size) <= s.maxBytes && |s.messages| <= s.maxMessages
    requires forall j <- s.messages :: j != k ==> AssemblyOk(s.messages[j])
    requires k in s.messages && |s.messages[k].parts| <= s.messages[k].count
    requires |s.messages[k].parts| < s.messages[k].count ==> AssemblyOk(s.messages[k])
    requires forall i <- s.messages[k].parts :: i < s.messages[k].count
    requires s.messages[k].bytes >= 0
    ensures Inv(Finish(s, k, f).0)
  {
    var a := s.messages[k];
    if |a.parts| == a.count {
      NoPartMissing(a.parts, a.count, a.count);
      SumRemove(s.messages, k, Size);
      assert (s.messages - {k}).Keys == s.messages.Keys - {k};
    }
  }

  lemma ExtendInv(r: Store, k: Key, f: Fragment)
    requires InvExcept(r, k) && f.index < r.messages[k].count && f.payload != []
    requires r.messages[k].parts == map[] ==>
      |f.payload| <= MAX_PAYLOAD - r.messages[k].bytes && |f.payload| <= r.maxBytes - r.buffered
    ensures Inv(Extend(r, k, f).0)
  {
    var a := r.messages[k];
    if f.index !in a.parts && |f.payload| <= MAX_PAYLOAD - a.bytes && |f.payload| <= r.maxBytes - r.buffered {
      ExtendStoredInv(r, k, f);
    } else {
      StartedInv(r, k);
      RemoveInv(r, k);
    }
  }

  lemma ExtendStoredInv(r: Store, k: Key, f: Fragment)
    requires InvExcept(r, k) && f.index < r.messages[k].count && f.index !in r.messages[k].parts && f.payload != []
    requires |f.payload| <= MAX_PAYLOAD - r.messages[k].bytes && |f.payload| <= r.maxBytes - r.buffered
    ensures Inv(Finish(Stored(r, k, r.messages[k], f), k, f).0)
  {
    SumNonNegative(r.messages[k].parts, Length);
    StoredInv(r, k, f);
    FinishInv(Stored(r, k, r.messages[k], f), k, f);
  }

  /** Once its first part is in, an assembly is as good as any. */
  lemma StartedInv(r: Store, k: Key)
    requires InvExcept(r, k) && r.messages[k].parts != map[]
    ensures Inv(r)
  {
    assert |r.messages[k].parts| >= 1;
    assert AssemblyOk(r.messages[k]);
  }

  lemma ExtendKnownInv(r: Store, k: Key, f: Fragment)
    requires Inv(r) && k in r.messages && f.index < r.messages[k].count && f.payload != []
    ensures Inv(Extend(r, k, f).0)
  {
    assert AssemblyOk(r.messages[k]);
    assert InvExcept(r, k);
    assert r.messages[k].parts != map[];
    ExtendInv(r, k, f);
  }

  function Opened(r: Store, k: Key, f: Fragment, now: int): Store {
    r.(messages := r.messages[k := Assembly(f.flags, f.address, f.count, now, map[], 0)])
  }

  lemma OpenedSum(messages: map<Key, Assembly>, k: Key, a: Assembly)
    requires k !in messages && a.bytes == 0
    ensures Sum(messages[k := a], Size) == Sum(messages, Size) && |messages[k := a]| == |messages| + 1
  {
    SumUpdate(messages, k, a, Size);
    assert messages[k := a].Keys == messages.Keys + {k};
  }

  lemma OthersOk(messages: map<Key, Assembly>, k: Key, a: Assembly)
    requires forall j <- messages :: AssemblyOk(messages[j])
    ensures var next := messages[k := a]; forall j <- next :: j != k ==> AssemblyOk(next[j])
  {
  }

  lemma OpenedInv(r: Store, k: Key, f: Fragment, now: int)
    requires Inv(r) && k !in r.messages && 1 < f.count <= MAX_FRAGMENTS && |r.messages| < r.maxMessages
    ensures InvExcept(Opened(r, k, f, now), k)
  {
    var a := Assembly(f.flags, f.address, f.count, now, map[], 0);
    OpenedSum(r.messages, k, a);
    OthersOk(r.messages, k, a);
    assert Receiving(a);
  }

  lemma ExtendNewInv(r: Store, k: Key, f: Fragment, now: int)
    requires Inv(r) && k !in r.messages && f.index < f.count && 1 < f.count <= MAX_FRAGMENTS
    requires 0 < |f.payload| <= MAX_PAYLOAD && |r.messages| < r.maxMessages && |f.payload| <= r.maxBytes - r.buffered
    ensures Inv(Extend(Opened(r, k, f, now), k, f).0)
  {
    OpenedInv(r, k, f, now);
    ExtendInv(Opened(r, k, f, now), k, f);
  }

  lemma PlaceInv(ok: Syntax, r: Store, f: Fragment, now: int)
    requires Inv(r) && Check(ok, f) == None
    ensures Inv(Place(r, f, now).0)
  {
    var k := KeyOf(f);
    if k in r.messages {
      if SameMessage(r.messages[k], f) {
        assert AssemblyOk(r.messages[k]);
        ExtendKnownInv(r, k, f);
      } else {
        RemoveInv(r, k);
      }
    } else if f.count > 1 && |r.messages| < r.maxMessages && |f.payload| <= r.maxBytes - r.buffered {
      ExtendNewInv(r, k, f, now);
    }
  }

  lemma StepInv(ok: Syntax, r: Store, op: Op)
    requires Inv(r)
    ensures Inv(Step(ok, r, op).0)
  {
    match op
    case OpAdd(f, now) =>
      if Check(ok, f) == None {
        RemoveAllInv(r, set k | k in r.messages && Expired(r, r.messages[k], now));
        PlaceInv(ok, Expire(r, now), f, now);
      }
    case OpExpire(now) => RemoveAllInv(r, set k | k in r.messages && Expired(r, r.messages[k], now));
    case OpDiscard(session) => RemoveAllInv(r, set k | k in r.messages && k.session == session);
  }

  /** The resource bounds hold after every sequence of operations. */
  lemma {:induction false} BoundsAlwaysHold(ok: Syntax, r: Store, ops: seq<Op>)
    requires Inv(r)
    ensures Inv(After(ok, r, ops))
    decreases |ops|
  {
    if ops == [] {
    } else {
      StepInv(ok, r, ops[0]);
      BoundsAlwaysHold(ok, Step(ok, r, ops[0]).0, ops[1..]);
    }
  }

  // ---- end-to-end reassembly ----
  //
  // The core argument is about any message cut into `n` pieces `g(0) .. g(n-1)`.

  /** Fragment `i` of a message cut into `n` pieces. */
  ghost function Cut(m: Message, n: nat, g: nat -> Bytes, i: nat): Fragment {
    Fragment(m.flags, m.session, m.message, i, n, m.address, g(i))
  }

  ghost function Concat(g: nat -> Bytes, n: nat): Bytes {
    if n == 0 then [] else Concat(g, n - 1) + g(n - 1)
  }

  ghost predicate WellCut(ok: Syntax, m: Message, n: nat, g: nat -> Bytes) {
    && Concat(g, n) == m.payload && |m.payload| <= MAX_PAYLOAD
    && forall i :: 0 <= i < n ==> Check(ok, Cut(m, n, g, i)) == None
  }

  ghost predicate IsAdd(op: Op, k: Key) { op.OpAdd? && KeyOf(op.fragment) == k }

  /** The fragment indices delivered under key `k`. */
  ghost function Got(ops: seq<Op>, k: Key): set<nat>
    decreases |ops|
  {
    if ops == [] then {} else (if IsAdd(ops[0], k) then {ops[0].fragment.index} else {}) + Got(ops[1..], k)
  }

  ghost predicate Covers(s: set<nat>, n: nat) { forall i: nat :: i < n ==> i in s }

  ghost predicate Below(s: set<nat>, n: nat) { forall i <- s :: i < n }

  /** The stored form of the pieces in `s`. */
  ghost function Held(g: nat -> Bytes, s: set<nat>): map<nat, Bytes> { map i | i in s :: g(i) }

  ghost function MessageKey(m: Message): Key { Key(m.session, m.message, m.flags % 2 == 1) }

  ghost function AssemblyFor(m: Message, n: nat, g: nat -> Bytes, s: set<nat>, created: int): Assembly {
    Assembly(m.flags, m.address, n, created, Held(g, s), Sum(Held(g, s), Length))
  }

  /** The store knows exactly the pieces in `s`, the first of them since `created`. */
  ghost predicate Holds(r: Store, m: Message, n: nat, g: nat -> Bytes, s: set<nat>, created: int) {
    var k := MessageKey(m);
    (s == {} ==> k !in r.messages) &&
    (s != {} ==> k in r.messages && r.messages[k] == AssemblyFor(m, n, g, s, created))
  }

  /**
   * An operation of the environment that does no harm: within one lifetime from `lo`, not a discard of
   * our session, and if it adds under our key then one of our own fragments.
   */
  ghost predicate Friendly(op: Op, m: Message, n: nat, g: nat -> Bytes, lo: int, ttl: int) {
    match op
    case OpAdd(f, now) =>
      lo <= now < lo + ttl && (KeyOf(f) == MessageKey(m) ==> f.index < n && f == Cut(m, n, g, f.index))
    case OpExpire(now) => lo <= now < lo + ttl
    case OpDiscard(session) => session != m.session
  }

  /** No fragment under our key is refused for capacity. */
  ghost predicate NotRefused(ok: Syntax, r: Store, ops: seq<Op>, k: Key)
    decreases |ops|
  {
    ops != [] ==>
      && (IsAdd(ops[0], k) ==> Step(ok, r, ops[0]).1 != Failed(Capacity))
      && NotRefused(ok, Step(ok, r, ops[0]).0, ops[1..], k)
  }

  lemma {:induction false} JoinHeld(g: nat -> Bytes, s: set<nat>, n: nat)
    requires Covers(s, n)
    ensures Join(Held(g, s), n) == Some(Concat(g, n))
  {
    if n == 0 {
    } else {
      assert n - 1 in s;
      JoinHeld(g, s, n - 1);
    }
  }

  lemma HeldGrows(g: nat -> Bytes, s: set<nat>, i: nat)
    requires i !in s
    ensures Held(g, s + {i}) == Held(g, s)[i := g(i)] && |Held(g, s + {i})| == |s| + 1
  {
    assert Held(g, s + {i}).Keys == s + {i};
  }

  lemma HeldAdd(g: nat -> Bytes, s: set<nat>, i: nat)
    requires i !in s
    ensures Held(g, s + {i}) == Held(g, s)[i := g(i)] && |Held(g, s + {i})| == |s| + 1
    ensures Sum(Held(g, s + {i}), Length) == Sum(Held(g, s), Length) + |g(i)|
  {
    HeldGrows(g, s, i);
    SumUpdate(Held(g, s), i, g(i), Length);
  }

  /** The pieces held so far never exceed the payload. */
  lemma {:induction false} HeldAtMost(g: nat -> Bytes, s: set<nat>, n: nat)
    requires Below(s, n)
    ensures Sum(Held(g, s), Length) <= |Concat(g, n)|
  {
    if n == 0 {
      assert s == {};
      assert Held(g, s) == map[];
    } else {
      var rest := s - {n - 1};
      HeldAtMost(g, rest, n - 1);
      if n - 1 in s {
        HeldAdd(g, rest, n - 1);
        assert rest + {n - 1} == s;
      } else {
        assert rest == s;
      }
    }
  }

  // ---- one operation ----

  lemma ExpireKeeps(r: Store, m: Message, n: nat, g: nat -> Bytes, s: set<nat>, created: int, now: int)
    requires Holds(r, m, n, g, s, created) && now < created + r.ttl
    ensures Holds(Expire(r, now), m, n, g, s, created)
  {
  }

  /** Placing a fragment under another key does not touch ours. */
  lemma PlaceOther(r: Store, f: Fragment, now: int, k: Key)
    requires KeyOf(f) != k
    ensures var q := Place(r, f, now).0;
      q.ttl == r.ttl && (k in q.messages <==> k in r.messages) && (k in r.messages ==> q.messages[k] == r.messages[k])
  {
  }

  lemma OtherKeeps(ok: Syntax, r: Store, m: Message, n: nat, g: nat -> Bytes, s: set<nat>, created: int,
                   op: Op, lo: int)
    requires Holds(r, m, n, g, s, created) && Friendly(op, m, n, g, lo, r.ttl) && lo <= created
    requires !IsAdd(op, MessageKey(m))
    ensures Holds(Step(ok, r, op).0, m, n, g, s, created) && Step(ok, r, op).0.ttl == r.ttl
  {
    match op
    case OpAdd(f, now) =>
      ExpireKeeps(r, m, n, g, s, created, now);
      PlaceOther(Expire(r, now), f, now, MessageKey(m));
    case OpExpire(now) => ExpireKeeps(r, m, n, g, s, created, now);
    case OpDiscard(session) =>
  }

  lemma KeyOfCut(m: Message, n: nat, g: nat -> Bytes, i: nat)
    ensures KeyOf(Cut(m, n, g, i)) == MessageKey(m)
  {
  }

  /** A piece we already hold changes nothing. */
  lemma DuplicateIsIdle(r: Store, m: Message, n: nat, g: nat -> Bytes, s: set<nat>, created: int, i: nat, now: int)
    requires Holds(r, m, n, g, s, created) && i in s
    ensures Place(r, Cut(m, n, g, i), now) == (r, Incomplete)
  {
    KeyOfCut(m, n, g, i);
  }

  /** What Extend does once the assembly is in the table. */
  lemma ExtendByPiece(r: Store, m: Message, n: nat, g: nat -> Bytes, s: set<nat>, created: int, i: nat)
    requires MessageKey(m) in r.messages && r.messages[MessageKey(m)] == AssemblyFor(m, n, g, s, created)
    requires i !in s && i < n && Below(s, n) && Concat(g, n) == m.payload && |m.payload| <= MAX_PAYLOAD
    requires Extend(r, MessageKey(m), Cut(m, n, g, i)).1 != Failed(Capacity)
    ensures var (q, outcome) := Extend(r, MessageKey(m), Cut(m, n, g, i));
      && q.ttl == r.ttl
      && (Covers(s + {i}, n) ==> outcome == Complete(m) && MessageKey(m) !in q.messages)
      && (!Covers(s + {i}, n) ==> outcome == Incomplete && Holds(q, m, n, g, s + {i}, created))
  {
    var k, f := MessageKey(m), Cut(m, n, g, i);
    PieceStored(r, m, n, g, s, created, i);
    var q := Stored(r, k, r.messages[k], f);
    CoversIffFull(s + {i}, n);
    if Covers(s + {i}, n) { JoinHeld(g, s + {i}, n); }
  }

  /** The piece goes into its assembly. */
  lemma PieceStored(r: Store, m: Message, n: nat, g: nat -> Bytes, s: set<nat>, created: int, i: nat)
    requires MessageKey(m) in r.messages && r.messages[MessageKey(m)] == AssemblyFor(m, n, g, s, created)
    requires i !in s && i < n && Below(s, n) && Concat(g, n) == m.payload && |m.payload| <= MAX_PAYLOAD
    requires Extend(r, MessageKey(m), Cut(m, n, g, i)).1 != Failed(Capacity)
    ensures var k, f := MessageKey(m), Cut(m, n, g, i);
            var q := Stored(r, k, r.messages[k], f);
            && q.messages[k] == AssemblyFor(m, n, g, s + {i}, created) && q.ttl == r.ttl
            && Extend(r, k, f) == Finish(q, k, f) && Below(s + {i}, n) && |Held(g, s + {i})| == |s + {i}|
  {
    HeldAdd(g, s, i);
    assert Below(s + {i}, n);
    HeldAtMost(g, s + {i}, n);
  }

  lemma CoversIffFull(s: set<nat>, n: nat)
    requires Below(s, n)
    ensures Covers(s, n) <==> |s| == n
  {
    BelowCount(s, n);
    if |s| == n { FullKeys(s, n); }
    if Covers(s, n) { CoversSize(s, n); }
  }

  lemma {:induction false} CoversSize(s: set<nat>, n: nat)
    requires Covers(s, n) && Below(s, n)
    ensures |s| >= n
  {
    if n == 0 {
    } else {
      assert n - 1 in s;
      var rest := s - {n - 1};
      assert Covers(rest, n - 1) && Below(rest, n - 1);
      CoversSize(rest, n - 1);
    }
  }

  /** The first piece of a message that needs several opens an assembly. */
  lemma FirstPiece(r: Store, m: Message, n: nat, g: nat -> Bytes, i: nat, now: int)
    requires MessageKey(m) !in r.messages && i < n && n > 1 && Concat(g, n) == m.payload && |m.payload| <= MAX_PAYLOAD
    requires Place(r, Cut(m, n, g, i), now).1 != Failed(Capacity)
    ensures var (q, outcome) := Place(r, Cut(m, n, g, i), now);
      q.ttl == r.ttl && outcome == Incomplete && Holds(q, m, n, g, {i}, now)
  {
    var k, f := MessageKey(m), Cut(m, n, g, i);
    KeyOfCut(m, n, g, i);
    var o := Opened(r, k, f, now);
    assert Held(g, {}) == map[];
    assert o.messages[k] == AssemblyFor(m, n, g, {}, now);
    assert Place(r, f, now) == Extend(o, k, f);
    ExtendByPiece(o, m, n, g, {}, now, i);
    assert {} + {i} == {i};
    CoversIffFull({i}, n);
  }

  /** What is to happen when our pieces in hand become `s`. */
  ghost predicate Delivered(r: Store, q: Store, outcome: Outcome, m: Message, n: nat, g: nat -> Bytes,
                            s: set<nat>, created: int)
  {
    && q.ttl == r.ttl
    && (Covers(s, n) ==> outcome == Complete(m) && MessageKey(m) !in q.messages)
    && (!Covers(s, n) ==> outcome == Incomplete && Holds(q, m, n, g, s, created))
  }

  lemma RepeatedPiece(r: Store, m: Message, n: nat, g: nat -> Bytes, s: set<nat>, created: int, i: nat, now: int)
    requires Holds(r, m, n, g, s, created) && !Covers(s, n) && i in s
    ensures var (q, outcome) := Place(r, Cut(m, n, g, i), now); Delivered(r, q, outcome, m, n, g, s + {i}, created)
  {
    DuplicateIsIdle(r, m, n, g, s, created, i, now);
    assert s + {i} == s;
  }

  lemma LaterPiece(r: Store, m: Message, n: nat, g: nat -> Bytes, s: set<nat>, created: int, i: nat, now: int)
    requires Holds(r, m, n, g, s, created) && Below(s, n) && i < n && i !in s && s != {}
    requires Concat(g, n) == m.payload && |m.payload| <= MAX_PAYLOAD
    requires Place(r, Cut(m, n, g, i), now).1 != Failed(Capacity)
    ensures var (q, outcome) := Place(r, Cut(m, n, g, i), now); Delivered(r, q, outcome, m, n, g, s + {i}, created)
  {
    KeyOfCut(m, n, g, i);
    assert Place(r, Cut(m, n, g, i), now) == Extend(r, MessageKey(m), Cut(m, n, g, i));
    ExtendByPiece(r, m, n, g, s, created, i);
  }

  lemma OnlyPiece(r: Store, m: Message, g: nat -> Bytes, created: int, now: int)
    requires Holds(r, m, 1, g, {}, created) && Concat(g, 1) == m.payload
    ensures var (q, outcome) := Place(r, Cut(m, 1, g, 0), now); Delivered(r, q, outcome, m, 1, g, {0}, now)
  {
    KeyOfCut(m, 1, g, 0);
    assert Concat(g, 1) == Concat(g, 0) + g(0);
  }

  lemma OpeningPiece(r: Store, m: Message, n: nat, g: nat -> Bytes, created: int, i: nat, now: int)
    requires Holds(r, m, n, g, {}, created) && i < n && n > 1
    requires Concat(g, n) == m.payload && |m.payload| <= MAX_PAYLOAD
    requires Place(r, Cut(m, n, g, i), now).1 != Failed(Capacity)
    ensures var (q, outcome) := Place(r, Cut(m, n, g, i), now); Delivered(r, q, outcome, m, n, g, {i}, now)
  {
    FirstPiece(r, m, n, g, i, now);
    CoversIffFull({i}, n);
  }

  /** One of our fragments arrives. */
  lemma PlacePiece(r: Store, m: Message, n: nat, g: nat -> Bytes, s: set<nat>, created: int, i: nat, now: int)
    requires Holds(r, m, n, g, s, created) && Below(s, n) && !Covers(s, n) && i < n
    requires Concat(g, n) == m.payload && |m.payload| <= MAX_PAYLOAD
    requires Place(r, Cut(m, n, g, i), now).1 != Failed(Capacity)
    ensures var (q, outcome) := Place(r, Cut(m, n, g, i), now);
            Delivered(r, q, outcome, m, n, g, s + {i}, if s == {} then now else created)
  {
    if i in s {
      RepeatedPiece(r, m, n, g, s, created, i, now);
    } else if s != {} {
      LaterPiece(r, m, n, g, s, created, i, now);
    } else {
      assert s + {i} == {i};
      if n > 1 { OpeningPiece(r, m, n, g, created, i, now); } else { OnlyPiece(r, m, g, created, now); }
    }
  }

  lemma AddPiece(ok: Syntax, r: Store, m: Message, n: nat, g: nat -> Bytes, s: set<nat>, created: int, i: nat, now: int)
    requires WellCut(ok, m, n, g) && Holds(r, m, n, g, s, created) && Below(s, n) && !Covers(s, n) && i < n
    requires now < created + r.ttl
    requires Add(ok, r, Cut(m, n, g, i), now).1 != Failed(Capacity)
    ensures var (q, outcome) := Add(ok, r, Cut(m, n, g, i), now);
      && q.ttl == r.ttl
      && (Covers(s + {i}, n) ==> outcome == Complete(m) && Holds(q, m, n, g, {}, created))
      && (!Covers(s + {i}, n) ==> outcome == Incomplete && Holds(q, m, n, g, s + {i}, if s == {} then now else created))
  {
    assert Check(ok, Cut(m, n, g, i)) == None;
    ExpireKeeps(r, m, n, g, s, created, now);
    PlacePiece(Expire(r, now), m, n, g, s, created, i, now);
  }

  // ---- whole deliveries ----

  ghost predicate AllFriendly(ops: seq<Op>, m: Message, n: nat, g: nat -> Bytes, lo: int, ttl: int) {
    forall j :: 0 <= j < |ops| ==> Friendly(ops[j], m, n, g, lo, ttl)
  }

  /** Our fragments arrive only while something is still missing. */
  ghost predicate OnlyWhileMissing(ops: seq<Op>, k: Key, s: set<nat>, n: nat) {
    forall j :: 0 <= j < |ops| && IsAdd(ops[j], k) ==> !Covers(s + Got(ops[..j], k), n)
  }

  lemma {:induction false} Quiet(ok: Syntax, r: Store, ops: seq<Op>, m: Message, n: nat, g: nat -> Bytes,
                                 created: int, lo: int)
    requires Holds(r, m, n, g, {}, created) && lo <= created && AllFriendly(ops, m, n, g, lo, r.ttl)
    requires forall j :: 0 <= j < |ops| ==> !IsAdd(ops[j], MessageKey(m))
    ensures Completions(ok, r, ops, MessageKey(m)) == [] && MessageKey(m) !in After(ok, r, ops).messages
    decreases |ops|
  {
    if ops == [] {
    } else {
      assert !IsAdd(ops[0], MessageKey(m)) && Friendly(ops[0], m, n, g, lo, r.ttl);
      OtherKeeps(ok, r, m, n, g, {}, created, ops[0], lo);
      forall j | 0 <= j < |ops[1..]|
        ensures !IsAdd(ops[1..][j], MessageKey(m)) && Friendly(ops[1..][j], m, n, g, lo, r.ttl)
      {
        assert ops[1..][j] == ops[j + 1];
      }
      Quiet(ok, Step(ok, r, ops[0]).0, ops[1..], m, n, g, created, lo);
    }
  }

  lemma GotStep(ops: seq<Op>, k: Key, j: nat)
    requires 0 < j <= |ops|
    ensures Got(ops[..j], k) == (if IsAdd(ops[0], k) then {ops[0].fragment.index} else {}) + Got(ops[1..][..j - 1], k)
  {
    assert ops[..j][1..] == ops[1..][..j - 1];
  }

  lemma MissingTail(ops: seq<Op>, k: Key, s: set<nat>, n: nat)
    requires ops != [] && OnlyWhileMissing(ops, k, s, n)
    ensures OnlyWhileMissing(ops[1..], k, s + (if IsAdd(ops[0], k) then {ops[0].fragment.index} else {}), n)
  {
    var t := s + (if IsAdd(ops[0], k) then {ops[0].fragment.index} else {});
    forall j | 0 <= j < |ops[1..]| && IsAdd(ops[1..][j], k) ensures !Covers(t + Got(ops[1..][..j], k), n) {
      assert ops[1..][j] == ops[j + 1];
      GotStep(ops, k, j + 1);
      assert t + Got(ops[1..][..j], k) == s + Got(ops[..j + 1], k);
    }
  }

  lemma FriendlyTail(ops: seq<Op>, m: Message, n: nat, g: nat -> Bytes, lo: int, ttl: int)
    requires ops != [] && AllFriendly(ops, m, n, g, lo, ttl)
    ensures AllFriendly(ops[1..], m, n, g, lo, ttl) && Friendly(ops[0], m, n, g, lo, ttl)
  {
    forall j | 0 <= j < |ops[1..]| ensures Friendly(ops[1..][j], m, n, g, lo, ttl) { assert ops[1..][j] == ops[j + 1]; }
  }

  /** When nothing is missing any more, the rest brings no fragment of ours. */
  lemma NoMoreAdds(ops: seq<Op>, k: Key, s: set<nat>, n: nat)
    requires OnlyWhileMissing(ops, k, s, n) && Covers(s, n)
    ensures forall j :: 0 <= j < |ops| ==> !IsAdd(ops[j], k)
  {
    forall j | 0 <= j < |ops| ensures !IsAdd(ops[j], k) {
      assert Covers(s + Got(ops[..j], k), n);
    }
  }

  lemma {:induction false} Deliver(ok: Syntax, r: Store, ops: seq<Op>, m: Message, n: nat, g: nat -> Bytes,
                                   s: set<nat>, created: int, lo: int)
    requires WellCut(ok, m, n, g) && Holds(r, m, n, g, s, created) && Below(s, n) && !Covers(s, n) && lo <= created
    requires AllFriendly(ops, m, n, g, lo, r.ttl) && NotRefused(ok, r, ops, MessageKey(m))
    requires OnlyWhileMissing(ops, MessageKey(m), s, n) && Covers(s + Got(ops, MessageKey(m)), n)
    ensures Completions(ok, r, ops, MessageKey(m)) == [m] && MessageKey(m) !in After(ok, r, ops).messages
    decreases |ops|
  {
    var k := MessageKey(m);
    assert s + {} == s;
    assert ops != [];
    FriendlyTail(ops, m, n, g, lo, r.ttl);
    MissingTail(ops, k, s, n);
    var (q, outcome) := Step(ok, r, ops[0]);
    if IsAdd(ops[0], k) {
      var i, now := ops[0].fragment.index, ops[0].now;
      AddPiece(ok, r, m, n, g, s, created, i, now);
      var t := s + {i};
      if Covers(t, n) {
        NoMoreAdds(ops[1..], k, t, n);
        Quiet(ok, q, ops[1..], m, n, g, created, lo);
      } else {
        assert t + Got(ops[1..], k) == s + Got(ops, k);
        Deliver(ok, q, ops[1..], m, n, g, t, if s == {} then now else created, lo);
      }
    } else {
      OtherKeeps(ok, r, m, n, g, s, created, ops[0], lo);
      assert s + {} == s && s + Got(ops[1..], k) == s + Got(ops, k);
      Deliver(ok, q, ops[1..], m, n, g, s, created, lo);
    }
  }

  // ---- what Encode produces ----

  ghost function Pieces(m: Message, per: nat): nat -> Bytes
    requires per > 0
  {
    (i: nat) => Part(m, per, i).payload
  }

  lemma {:induction false} ConcatPieces(m: Message, per: nat, n: nat)
    requires per > 0
    ensures Concat(Pieces(m, per), n) == Glued(m, per, n)
  {
    if n == 0 {
    } else {
      ConcatPieces(m, per, n - 1);
    }
  }

  lemma EncodedIsWellCut(ok: Syntax, m: Message, size: int)
    requires Encodable(ok, m, size)
    ensures WellCut(ok, m, Count(m, Budget(m, size)), Pieces(m, Budget(m, size)))
  {
    var per := Budget(m, size);
    var n, g := Count(m, per), Pieces(m, per);
    ConcatPieces(m, per, n);
    GluedIsPayload(m, per);
    forall i | 0 <= i < n ensures Check(ok, Cut(m, n, g, i)) == None {
      PartIsValid(ok, m, size, i);
      assert Cut(m, n, g, i) == Part(m, per, i);
    }
  }

  lemma CountPositive(m: Message, per: nat)
    requires per > 0
    ensures Count(m, per) > 0
  {
    if m.payload != [] { EndCovers(m, per); }
  }

  lemma EmptyCoversNothing(s: set<nat>, n: nat)
    requires s == {} && n > 0
    ensures !Covers(s, n)
  {
    assert 0 !in s;
  }

  /** Every frame Encode returns parses to the fragment it stands for. */
  lemma EncodedFrameParses(ok: Syntax, m: Message, size: int, i: nat)
    requires Encodable(ok, m, size) && i < Count(m, Budget(m, size))
    ensures Parse(ok, Frame(Part(m, Budget(m, size), i))) == Ok(Part(m, Budget(m, size), i))
  {
    PartIsValid(ok, m, size, i);
    ParseOfFrame(ok, Part(m, Budget(m, size), i));
  }

  /**
   * End to end: the fragments of an encoded message, in any order, repeated at will before completion
   * and interleaved with anything else, complete exactly once and give back exactly the message.
   */
  lemma ReassemblyIsExact(ok: Syntax, m: Message, size: int, r: Store, ops: seq<Op>, lo: int)
    requires Encodable(ok, m, size) && MessageKey(m) !in r.messages
    requires var per := Budget(m, size); AllFriendly(ops, m, Count(m, per), Pieces(m, per), lo, r.ttl)
    requires NotRefused(ok, r, ops, MessageKey(m))
    requires Covers(Got(ops, MessageKey(m)), Count(m, Budget(m, size)))
    requires OnlyWhileMissing(ops, MessageKey(m), {}, Count(m, Budget(m, size)))
    ensures Completions(ok, r, ops, MessageKey(m)) == [m]
    ensures MessageKey(m) !in After(ok, r, ops).messages
  {
    var per := Budget(m, size);
    EncodedIsWellCut(ok, m, size);
    assert {} + Got(ops, MessageKey(m)) == Got(ops, MessageKey(m));
    CountPositive(m, per);
    EmptyCoversNothing({}, Count(m, per));
    Deliver(ok, r, ops, m, Count(m, per), Pieces(m, per), {}, lo, lo);
  }

  // ---- nothing is ever mixed up, whatever arrives ----

  function Origin(k: Key, a: Assembly, i: nat, p: Bytes): Fragment {
    Fragment(a.flags, k.session, k.message, i, a.count, a.address, p)
  }

  /** Every stored part was delivered as a fragment with exactly the metadata of its assembly. */
  ghost predicate Genuine(r: Store, log: set<Fragment>) {
    forall k <- r.messages, i <- r.messages[k].parts :: Origin(k, r.messages[k], i, r.messages[k].parts[i]) in log
  }

  /** A message made only of delivered fragments that agree on session, message, direction, address and count. */
  ghost predicate MadeOf(m: Message, log: set<Fragment>) {
    exists n: nat, parts: map<nat, Bytes> :: MadeFrom(m, log, n, parts)
  }

  ghost predicate MadeFrom(m: Message, log: set<Fragment>, n: nat, parts: map<nat, Bytes>) {
    && Join(parts, n) == Some(m.payload)
    && forall i <- parts :: Fragment(m.flags, m.session, m.message, i, n, m.address, parts[i]) in log
  }

  lemma ExtendGenuine(r: Store, f: Fragment, log: set<Fragment>)
    requires KeyOf(f) in r.messages && SameMessage(r.messages[KeyOf(f)], f) && Genuine(r, log) && f in log
    ensures Genuine(Extend(r, KeyOf(f), f).0, log)
    ensures Extend(r, KeyOf(f), f).1.Complete? ==> MadeOf(Extend(r, KeyOf(f), f).1.message, log)
  {
    var k := KeyOf(f);
    var a := r.messages[k];
    var s := Stored(r, k, a, f);
    assert Genuine(s, log);
    var outcome := Extend(r, k, f).1;
    if outcome.Complete? {
      assert MadeFrom(outcome.message, log, a.count, s.messages[k].parts);
    }
  }

  lemma PlaceGenuine(r: Store, f: Fragment, now: int, log: set<Fragment>)
    requires Genuine(r, log) && f in log && f.index < f.count
    ensures Genuine(Place(r, f, now).0, log)
    ensures Place(r, f, now).1.Complete? ==> MadeOf(Place(r, f, now).1.message, log)
  {
    var k := KeyOf(f);
    if k in r.messages {
      if SameMessage(r.messages[k], f) { ExtendGenuine(r, f, log); }
    } else if f.count == 1 {
      var m := Place(r, f, now).1.message;
      var parts := map[0 := f.payload];
      assert Join(parts, 0) == Some([]);
      assert Join(parts, 1) == Some([] + f.payload);
      assert [] + f.payload == f.payload;
      assert MadeFrom(m, log, 1, parts);
    } else if |r.messages| < r.maxMessages && |f.payload| <= r.maxBytes - r.buffered {
      ExtendGenuine(Opened(r, k, f, now), f, log);
    }
  }

  /** Fragments of different datagrams are never combined, under any input whatsoever. */
  lemma {:induction false} CompletionsAreGenuine(ok: Syntax, r: Store, ops: seq<Op>, k: Key, log: set<Fragment>)
    requires Genuine(r, log) && forall j :: 0 <= j < |ops| && ops[j].OpAdd? ==> ops[j].fragment in log
    ensures forall m <- Completions(ok, r, ops, k) :: MadeOf(m, log)
    decreases |ops|
  {
    if ops == [] {
    } else {
      var (q, outcome) := Step(ok, r, ops[0]);
      if ops[0].OpAdd? && Check(ok, ops[0].fragment) == None {
        PlaceGenuine(Expire(r, ops[0].now), ops[0].fragment, ops[0].now, log);
      }
      forall j | 0 <= j < |ops[1..]| && ops[1..][j].OpAdd? ensures ops[1..][j].fragment in log {
        assert ops[1..][j] == ops[j + 1];
      }
      CompletionsAreGenuine(ok, q, ops[1..], k, log);
    }
  }
}
