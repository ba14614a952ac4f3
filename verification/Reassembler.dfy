/** The bounded reassembler of internal/datagram/reassembler.go. */
module Reassembler {
  import opened Basics
  import opened MapSums
  import opened Datagram

  datatype Key = Key(session: nat, message: nat, response: bool)

  datatype Assembly = Assembly(
    flags: byte, address: Bytes, count: nat, createdAt: int, parts: map<nat, Bytes>, bytes: int)

  datatype Store = Store(
    maxMessages: nat, maxBytes: nat, ttl: int, messages: map<Key, Assembly>, buffered: int)

  datatype Outcome = Incomplete | Complete(message: Message) | Failed(error: Error)

  function KeyOf(f: Fragment): Key { Key(f.session, f.message, f.flags % 2 == 1) }

  function Size(a: Assembly): int { a.bytes }

  function Length(p: Bytes): int { |p| }

  // ---- the sections ----

  function Remove(r: Store, k: Key): Store {
    if k !in r.messages then r
    else r.(messages := r.messages - {k}, buffered := r.buffered - r.messages[k].bytes)
  }

  predicate Expired(r: Store, a: Assembly, now: int) { now >= a.createdAt + r.ttl }

  /** Drops the messages in `ks` and the bytes they hold. */
  ghost function RemoveAll(r: Store, ks: set<Key>): Store {
    r.(messages := r.messages - ks,
       buffered := r.buffered - Sum(Restrict(r.messages, ks), Size))
  }

  ghost function Expire(r: Store, now: int): Store {
    RemoveAll(r, set k | k in r.messages && Expired(r, r.messages[k], now))
  }

  ghost function DiscardSession(r: Store, session: nat): Store {
    RemoveAll(r, set k | k in r.messages && k.session == session)
  }

  predicate SameMessage(a: Assembly, f: Fragment) {
    a.flags == f.flags && a.address == f.address && a.count == f.count
  }

  /** The parts in index order, if none below `n` is missing. */
  function Join(parts: map<nat, Bytes>, n: nat): Option<Bytes> {
    if n == 0 then Some([])
    else if n - 1 !in parts then None
    else match Join(parts, n - 1) case None => None case Some(p) => Some(p + parts[n - 1])
  }

  function Stored(r: Store, k: Key, a: Assembly, f: Fragment): Store {
    var grown := a.(parts := a.parts[f.index := f.payload], bytes := a.bytes + |f.payload|);
    r.(messages := r.messages[k := grown], buffered := r.buffered + |f.payload|)
  }

  function Finish(r: Store, k: Key, f: Fragment): (Store, Outcome)
    requires k in r.messages
  {
    var a := r.messages[k];
    if |a.parts| != a.count then (r, Incomplete)
    else match Join(a.parts, a.count)
      case None => (r, Incomplete)
      case Some(payload) => (Remove(r, k), Complete(Message(a.flags, f.session, f.message, a.address, payload)))
  }

  /** Adding to an assembly that is in the table. */
  function Extend(r: Store, k: Key, f: Fragment): (Store, Outcome)
    requires k in r.messages
  {
    var a := r.messages[k];
    if f.index in a.parts then
      (if a.parts[f.index] == f.payload then (r, Incomplete) else (Remove(r, k), Failed(Conflict)))
    else if |f.payload| > MAX_PAYLOAD - a.bytes then (Remove(r, k), Failed(PayloadTooLarge))
    else if |f.payload| > r.maxBytes - r.buffered then (r, Failed(Capacity))
    else Finish(Stored(r, k, a, f), k, f)
  }

  function Place(r: Store, f: Fragment, now: int): (Store, Outcome) {
    var k := KeyOf(f);
    if k in r.messages then
      (if SameMessage(r.messages[k], f) then Extend(r, k, f) else (Remove(r, k), Failed(Conflict)))
    else if f.count == 1 then (r, Complete(Message(f.flags, f.session, f.message, f.address, f.payload)))
    else if |r.messages| >= r.maxMessages || |f.payload| > r.maxBytes - r.buffered then (r, Failed(Capacity))
    else Extend(r.(messages := r.messages[k := Assembly(f.flags, f.address, f.count, now, map[], 0)]), k, f)
  }

  ghost function Add(ok: Syntax, r: Store, f: Fragment, now: int): (Store, Outcome) {
    match Check(ok, f)
    case Some(e) => (r, Failed(e))
    case None => Place(Expire(r, now), f, now)
  }

  // ---- runs ----

  datatype Op = OpAdd(fragment: Fragment, now: int) | OpExpire(now: int) | OpDiscard(session: nat)

  ghost function Step(ok: Syntax, r: Store, op: Op): (Store, Outcome) {
    match op
    case OpAdd(f, now) => Add(ok, r, f, now)
    case OpExpire(now) => (Expire(r, now), Incomplete)
    case OpDiscard(session) => (DiscardSession(r, session), Incomplete)
  }

  ghost function After(ok: Syntax, r: Store, ops: seq<Op>): Store
    decreases |ops|
  {
    if ops == [] then r else After(ok, Step(ok, r, ops[0]).0, ops[1..])
  }

  /** The messages completed under key `k`, in order. */
  ghost function Completions(ok: Syntax, r: Store, ops: seq<Op>, k: Key): seq<Message>
    decreases |ops|
  {
    if ops == [] then []
    else
      var (next, outcome) := Step(ok, r, ops[0]);
      (if ops[0].OpAdd? && KeyOf(ops[0].fragment) == k && outcome.Complete? then [outcome.message] else [])
      + Completions(ok, next, ops[1..], k)
  }

  // ---- the invariant ----

  ghost predicate AssemblyOk(a: Assembly) {
    && 1 <= |a.parts| < a.count <= MAX_FRAGMENTS
    && (forall i <- a.parts :: i < a.count && a.parts[i] != [])
    && a.bytes == Sum(a.parts, Length) <= MAX_PAYLOAD
  }

  ghost predicate Inv(r: Store) {
    && r.buffered == Sum(r.messages, Size) <= r.maxBytes
    && |r.messages| <= r.maxMessages
    && (forall k <- r.messages :: AssemblyOk(r.messages[k]))
  }

  function New(maxMessages: int, maxBytes: int, ttl: int): Option<Store> {
    if maxMessages <= 0 || maxBytes <= 0 || ttl <= 0 then None
    else Some(Store(maxMessages, maxBytes, ttl, map[], 0))
  }
}
