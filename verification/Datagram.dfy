/**
 * The ACDG datagram format of internal/datagram/codec.go.
 *
 * Address syntax (UTF-8, net.SplitHostPort and the checks on host and port) is a parameter: any
 * predicate on byte strings that excludes NUL, as control characters are refused in the host and
 * only digits are accepted in the port.
 */
module Datagram {
  import opened Basics
  import opened Wire

  const VERSION: byte := 1
  const HEADER_SIZE: nat := 20
  const MAX_PAYLOAD: nat := 4096
  const MAX_FRAGMENTS: nat := 256
  const MAX_ADDRESS: nat := 1024
  const MIN_FRAME: nat := 24
  const MAX_FRAME: nat := 5140
  const MAGIC: nat := 0x41434447

  type Syntax = f: Bytes -> bool | forall a: Bytes :: f(a) ==> 0 !in a
    ghost witness (a => false)

  datatype Message = Message(flags: byte, session: nat, message: nat, address: Bytes, payload: Bytes)

  datatype Fragment = Fragment(
    flags: byte, session: nat, message: nat, index: nat, count: nat, address: Bytes, payload: Bytes)

  datatype Error =
    | BadMagic | BadVersion | BadFlags | InvalidSession | InvalidFragment | InvalidAddress
    | PayloadTooLarge | FrameSize | Capacity | Conflict

  function ValidAddress(ok: Syntax, a: Bytes): bool { 0 < |a| <= MAX_ADDRESS && ok(a) }

  /** validateFragment, in its order of checks. */
  function Check(ok: Syntax, f: Fragment): Option<Error> {
    if f.flags > 1 then Some(BadFlags)
    else if f.session == 0 then Some(InvalidSession)
    else if f.count == 0 || f.count > MAX_FRAGMENTS || f.index >= f.count then Some(InvalidFragment)
    else if f.count > 1 && f.payload == [] then Some(InvalidFragment)
    else if |f.payload| > MAX_PAYLOAD then Some(PayloadTooLarge)
    else if !ValidAddress(ok, f.address) then Some(InvalidAddress)
    else None
  }

  /** A value the Go types can hold and validateFragment accepts. */
  predicate ValidFragment(ok: Syntax, f: Fragment) {
    Check(ok, f) == None && f.session < 0x1_0000_0000 && f.message < 0x1_0000_0000
  }

  // ---- printing ----

  function Header(f: Fragment): (h: Bytes)
    ensures |h| == HEADER_SIZE
  {
    PutBE(4, MAGIC) + [VERSION] + [f.flags] + PutBE(4, f.session) + PutBE(4, f.message)
    + PutBE(2, f.index) + PutBE(2, f.count) + PutBE(2, |f.address|)
  }

  /** The bytes of one frame. */
  function Frame(f: Fragment): Bytes { Header(f) + f.address + f.payload }

  /** encodeFragment: fills a buffer field by field. */
  method EncodeFragment(f: Fragment) returns (frame: array<byte>)
    ensures fresh(frame) && frame[..] == Frame(f)
  {
    frame := new byte[HEADER_SIZE + |f.address| + |f.payload|];
    PutHeader(frame, f);
    Put(frame, HEADER_SIZE, f.address);
    Put(frame, HEADER_SIZE + |f.address|, f.payload);
    assert frame[..] == frame[..HEADER_SIZE + |f.address| + |f.payload|];
  }

  method PutHeader(frame: array<byte>, f: Fragment)
    requires frame.Length >= HEADER_SIZE
    modifies frame
    ensures frame[..HEADER_SIZE] == Header(f)
  {
    PutFront(frame, f);
    ghost var front := frame[..14];
    Put(frame, 14, PutBE(2, f.index));
    Put(frame, 16, PutBE(2, f.count));
    Put(frame, 18, PutBE(2, |f.address|));
    assert frame[..HEADER_SIZE] == front + PutBE(2, f.index) + PutBE(2, f.count) + PutBE(2, |f.address|);
  }

  /** The fields up to the message identifier. */
  method PutFront(frame: array<byte>, f: Fragment)
    requires frame.Length >= HEADER_SIZE
    modifies frame
    ensures frame[..14] == PutBE(4, MAGIC) + [VERSION] + [f.flags] + PutBE(4, f.session) + PutBE(4, f.message)
  {
    Put(frame, 0, PutBE(4, MAGIC));
    Put(frame, 4, [VERSION]);
    Put(frame, 5, [f.flags]);
    Put(frame, 6, PutBE(4, f.session));
    Put(frame, 10, PutBE(4, f.message));
  }

  // ---- parsing ----

  function Parse(ok: Syntax, frame: Bytes): Result<Fragment, Error> {
    if |frame| < HEADER_SIZE || |frame| > MAX_FRAME then Err(FrameSize)
    else if GetBE(frame[0..4]) != MAGIC then Err(BadMagic)
    else if frame[4] != VERSION then Err(BadVersion)
    else if frame[5] > 1 then Err(BadFlags)
    else if GetBE(frame[6..10]) == 0 then Err(InvalidSession)
    else
      var index, count := GetBE(frame[14..16]), GetBE(frame[16..18]);
      if count == 0 || count > MAX_FRAGMENTS || index >= count then Err(InvalidFragment)
      else
        var n := GetBE(frame[18..20]);
        if n == 0 || n > MAX_ADDRESS || n > |frame| - HEADER_SIZE then Err(InvalidAddress)
        else
          var size := |frame| - HEADER_SIZE - n;
          var address := frame[HEADER_SIZE..HEADER_SIZE + n];
          if size > MAX_PAYLOAD then Err(PayloadTooLarge)
          else if count > 1 && size == 0 then Err(InvalidFragment)
          else if 0 in address || !ValidAddress(ok, address) then Err(InvalidAddress)
          else Ok(Fragment(frame[5], GetBE(frame[6..10]), GetBE(frame[10..14]), index, count, address,
                           frame[HEADER_SIZE + n..]))
  }

  // ---- the format is canonical ----

  lemma HeaderFields(f: Fragment, rest: Bytes)
    ensures var w := Header(f) + rest;
      && w[0..4] == PutBE(4, MAGIC) && w[4] == VERSION && w[5] == f.flags
      && w[6..10] == PutBE(4, f.session) && w[10..14] == PutBE(4, f.message)
      && w[14..16] == PutBE(2, f.index) && w[16..18] == PutBE(2, f.count) && w[18..20] == PutBE(2, |f.address|)
      && w[20..] == rest
  {
  }

  /** The header's numbers read back, and the rest splits into address and payload. */
  lemma FrameFields(f: Fragment)
    requires f.session < 0x1_0000_0000 && f.message < 0x1_0000_0000
    requires f.index < 0x1_0000 && f.count < 0x1_0000 && |f.address| < 0x1_0000
    ensures var w := Frame(f); var n := |f.address|;
      && GetBE(w[0..4]) == MAGIC && w[4] == VERSION && w[5] == f.flags
      && GetBE(w[6..10]) == f.session && GetBE(w[10..14]) == f.message
      && GetBE(w[14..16]) == f.index && GetBE(w[16..18]) == f.count && GetBE(w[18..20]) == n
      && w[20..20 + n] == f.address && w[20 + n..] == f.payload && |w| == 20 + n + |f.payload|
  {
    var rest := f.address + f.payload;
    var w := Header(f) + rest;
    assert Frame(f) == w;
    HeaderFields(f, rest);
    Numbers(f);
    BodyFields(w, f.address, f.payload);
  }

  lemma BodyFields(w: Bytes, address: Bytes, payload: Bytes)
    requires |w| >= 20 && w[20..] == address + payload
    ensures w[20..20 + |address|] == address && w[20 + |address|..] == payload
    ensures |w| == 20 + |address| + |payload|
  {
    assert w[20 + |address|..] == w[20..][|address|..];
    assert w[20..20 + |address|] == w[20..][..|address|];
  }

  lemma Numbers(f: Fragment)
    requires f.session < 0x1_0000_0000 && f.message < 0x1_0000_0000
    requires f.index < 0x1_0000 && f.count < 0x1_0000 && |f.address| < 0x1_0000
    ensures GetBE(PutBE(4, MAGIC)) == MAGIC && GetBE(PutBE(4, f.session)) == f.session
    ensures GetBE(PutBE(4, f.message)) == f.message && GetBE(PutBE(2, f.index)) == f.index
    ensures GetBE(PutBE(2, f.count)) == f.count && GetBE(PutBE(2, |f.address|)) == |f.address|
  {
    Widths();
    GetPut(4, MAGIC);
    GetPut(4, f.session);
    GetPut(4, f.message);
    GetPut(2, f.index);
    GetPut(2, f.count);
    GetPut(2, |f.address|);
  }

  /** Reading a printed frame gives the fragment back. */
  lemma ParseOfFrame(ok: Syntax, f: Fragment)
    requires ValidFragment(ok, f)
    ensures Parse(ok, Frame(f)) == Ok(f)
  {
    FrameFields(f);
  }

  lemma HeaderCut(b: Bytes)
    requires |b| >= HEADER_SIZE
    ensures b[..HEADER_SIZE] == b[0..4] + [b[4]] + [b[5]] + b[6..10] + b[10..14] + b[14..16] + b[16..18] + b[18..20]
  {
  }

  lemma HeaderFromFields(f: Fragment, b: Bytes)
    requires |b| >= HEADER_SIZE && GetBE(b[0..4]) == MAGIC && b[4] == VERSION && b[5] == f.flags
    requires GetBE(b[6..10]) == f.session && GetBE(b[10..14]) == f.message
    requires GetBE(b[14..16]) == f.index && GetBE(b[16..18]) == f.count && GetBE(b[18..20]) == |f.address|
    ensures Header(f) == b[..HEADER_SIZE]
  {
    PutGet(b[0..4]);
    PutGet(b[6..10]);
    PutGet(b[10..14]);
    PutGet(b[14..16]);
    PutGet(b[16..18]);
    PutGet(b[18..20]);
    HeaderCut(b);
  }

  /** And whatever is accepted is the printed form of a valid fragment, byte for byte. */
  lemma FrameOfParse(ok: Syntax, frame: Bytes)
    requires Parse(ok, frame).Ok?
    ensures ValidFragment(ok, Parse(ok, frame).value) && Frame(Parse(ok, frame).value) == frame
  {
    var f := Parse(ok, frame).value;
    Widths();
    HeaderFromFields(f, frame);
    InThree(frame, HEADER_SIZE, |f.address|);
  }

  // ---- splitting a message ----

  function Budget(m: Message, size: int): int { size - HEADER_SIZE - |m.address| }

  function Count(m: Message, per: nat): nat
    requires per > 0
  {
    if m.payload == [] then 1 else (|m.payload| + per - 1) / per
  }

  /** What Encode refuses, in its order of checks. */
  function Refusal(ok: Syntax, m: Message, size: int): Option<Error> {
    if m.flags > 1 then Some(BadFlags)
    else if m.session == 0 then Some(InvalidSession)
    else if !ValidAddress(ok, m.address) then Some(InvalidAddress)
    else if |m.payload| > MAX_PAYLOAD then Some(PayloadTooLarge)
    else if size < MIN_FRAME || size > MAX_FRAME then Some(FrameSize)
    else if Budget(m, size) < 1 then Some(FrameSize)
    else if Count(m, Budget(m, size)) > MAX_FRAGMENTS then Some(FrameSize)
    else None
  }

  /** A message the Go types can hold and Encode accepts at this frame budget. */
  predicate Encodable(ok: Syntax, m: Message, size: int) {
    Refusal(ok, m, size) == None && m.session < 0x1_0000_0000 && m.message < 0x1_0000_0000
  }

  function Clip(m: Message, n: nat): nat { if n > |m.payload| then |m.payload| else n }

  function Part(m: Message, per: nat, i: nat): Fragment
    requires per > 0
  {
    MulMonotone(i, i + 1, per);
    Fragment(m.flags, m.session, m.message, i, Count(m, per), m.address,
             m.payload[Clip(m, i * per)..Clip(m, (i + 1) * per)])
  }

  lemma StartWithin(m: Message, per: nat, i: nat)
    requires per > 0 && i < Count(m, per)
    ensures i * per <= |m.payload| && (m.payload != [] ==> i * per < |m.payload|)
  {
    if m.payload != [] {
      var n := |m.payload| + per - 1;
      MulMonotone(i + 1, n / per, per);
      assert (n / per) * per <= n;
    }
  }

  lemma MulMonotone(a: nat, b: nat, c: nat)
    requires a <= b
    ensures a * c <= b * c
  {
  }

  /** Only the last part may be short: the parts before `Count` end beyond the payload. */
  lemma EndCovers(m: Message, per: nat)
    requires per > 0
    ensures Count(m, per) * per >= |m.payload|
  {
    if m.payload != [] {
      var n := |m.payload| + per - 1;
      assert n == (n / per) * per + n % per && n % per < per;
    }
  }

  /** Every part is a valid fragment whose frame fits the budget. */
  lemma PartIsValid(ok: Syntax, m: Message, size: int, i: nat)
    requires Encodable(ok, m, size) && i < Count(m, Budget(m, size))
    ensures ValidFragment(ok, Part(m, Budget(m, size), i)) && |Frame(Part(m, Budget(m, size), i))| <= size
  {
    var per := Budget(m, size);
    StartWithin(m, per, i);
    assert (i + 1) * per == i * per + per;
    if Count(m, per) > 1 { assert m.payload != []; }
  }

  /** The frames of a message, in order. */
  function Frames(m: Message, per: nat): (frames: seq<Bytes>)
    requires per > 0
    ensures |frames| == Count(m, per) && forall i :: 0 <= i < |frames| ==> frames[i] == Frame(Part(m, per, i))
  {
    seq(Count(m, per), (i: nat) => Frame(Part(m, per, i)))
  }

  method Encode(ok: Syntax, m: Message, size: int) returns (r: Result<seq<Bytes>, Error>)
    ensures r.Err? <==> Refusal(ok, m, size).Some?
    ensures r.Err? ==> r.error == Refusal(ok, m, size).value
    ensures r.Ok? ==> r.value == Frames(m, Budget(m, size))
    ensures r.Ok? && Encodable(ok, m, size) ==> forall frame <- r.value :: |frame| <= size
  {
    if m.flags > 1 { return Err(BadFlags); }
    if m.session == 0 { return Err(InvalidSession); }
    if !ValidAddress(ok, m.address) { return Err(InvalidAddress); }
    if |m.payload| > MAX_PAYLOAD { return Err(PayloadTooLarge); }
    if size < MIN_FRAME || size > MAX_FRAME { return Err(FrameSize); }
    var per := size - HEADER_SIZE - |m.address|;
    if per < 1 { return Err(FrameSize); }
    var count := 1;
    if |m.payload| > 0 { count := (|m.payload| + per - 1) / per; }
    if count > MAX_FRAGMENTS { return Err(FrameSize); }
    FramesFit(ok, m, size);
    var frames := EncodeParts(m, per, count);
    return Ok(frames);
  }

  lemma PartAt(m: Message, per: nat, i: nat, start: nat, end: nat)
    requires per > 0 && i < Count(m, per) && start == i * per && end == Min(start + per, |m.payload|)
    ensures start <= end
    ensures Part(m, per, i) ==
      Fragment(m.flags, m.session, m.message, i, Count(m, per), m.address, m.payload[start..end])
  {
    StartWithin(m, per, i);
    assert (i + 1) * per == start + per;
  }

  /** The loop of Encode. */
  method EncodeParts(m: Message, per: nat, count: nat) returns (frames: seq<Bytes>)
    requires per > 0 && count == Count(m, per)
    ensures frames == Frames(m, per)
  {
    frames := [];
    var index := 0;
    while index < count
      invariant 0 <= index <= count && |frames| == index
      invariant forall i :: 0 <= i < index ==> frames[i] == Frame(Part(m, per, i))
    {
      var start := index * per;
      var end := start + per;
      if end > |m.payload| { end := |m.payload|; }
      PartAt(m, per, index, start, end);
      var part := Fragment(m.flags, m.session, m.message, index, count, m.address, m.payload[start..end]);
      var frame := EncodeFragment(part);
      frames := frames + [frame[..]];
      index := index + 1;
    }
  }

  lemma FramesFit(ok: Syntax, m: Message, size: int)
    requires Budget(m, size) > 0
    ensures Encodable(ok, m, size) ==> forall frame <- Frames(m, Budget(m, size)) :: |frame| <= size
  {
    if Encodable(ok, m, size) {
      var frames := Frames(m, Budget(m, size));
      forall i | 0 <= i < |frames| ensures |frames[i]| <= size { PartIsValid(ok, m, size, i); }
    }
  }

  /** The payloads of the first `n` parts, glued together. */
  function Glued(m: Message, per: nat, n: nat): Bytes
    requires per > 0
  {
    if n == 0 then [] else Glued(m, per, n - 1) + Part(m, per, n - 1).payload
  }

  lemma {:induction false} GluedIsPrefix(m: Message, per: nat, n: nat)
    requires per > 0
    ensures Glued(m, per, n) == m.payload[..Clip(m, n * per)]
  {
    if n > 0 {
      GluedIsPrefix(m, per, n - 1);
      assert (n - 1) * per <= n * per by { MulMonotone(n - 1, n, per); }
      assert m.payload[..Clip(m, n * per)]
          == m.payload[..Clip(m, (n - 1) * per)] + m.payload[Clip(m, (n - 1) * per)..Clip(m, n * per)];
    } else {
      assert 0 * per == 0;
    }
  }

  /** All parts together are the payload. */
  lemma GluedIsPayload(m: Message, per: nat)
    requires per > 0
    ensures Glued(m, per, Count(m, per)) == m.payload
  {
    GluedIsPrefix(m, per, Count(m, per));
    EndCovers(m, per);
  }

  // ---- what is refused ----

  /** What every fragment must meet. */
  lemma CheckIsExact(ok: Syntax, f: Fragment)
    ensures Check(ok, f) == None <==>
      && f.flags in {0, 1} && f.session != 0 && f.index < f.count <= 256
      && |f.payload| <= 4096 && (f.payload == [] ==> f.count == 1) && 1 <= |f.address| <= 1024 && ok(f.address)
  {
  }

  /** The pieces one after the other. */
  function Flat(pieces: seq<Bytes>): Bytes {
    if pieces == [] then [] else Flat(pieces[..|pieces| - 1]) + pieces[|pieces| - 1]
  }

  /** At most 256 pieces of at most `per` bytes make up the payload. */
  ghost predicate Divides(pieces: seq<Bytes>, per: int, payload: Bytes) {
    |pieces| <= 256 && (forall p <- pieces :: |p| <= per) && Flat(pieces) == payload
  }

  lemma {:induction false} FlatIsShort(pieces: seq<Bytes>, per: nat)
    requires forall p <- pieces :: |p| <= per
    ensures |Flat(pieces)| <= |pieces| * per
  {
    if pieces == [] {
    } else {
      FlatIsShort(pieces[..|pieces| - 1], per);
      assert |pieces| * per == (|pieces| - 1) * per + per;
    }
  }

  function Cuts(m: Message, per: nat, n: nat): (pieces: seq<Bytes>)
    requires per > 0
    ensures |pieces| == n && forall i :: 0 <= i < n ==> pieces[i] == Part(m, per, i).payload
  {
    seq(n, (i: nat) => Part(m, per, i).payload)
  }

  lemma {:induction false} CutsAreGlued(m: Message, per: nat, n: nat)
    requires per > 0
    ensures Flat(Cuts(m, per, n)) == Glued(m, per, n)
  {
    if n == 0 {
    } else {
      CutsAreGlued(m, per, n - 1);
      assert Cuts(m, per, n)[..n - 1] == Cuts(m, per, n - 1);
    }
  }

  lemma PartIsShort(m: Message, per: nat, i: nat)
    requires per > 0
    ensures |Part(m, per, i).payload| <= per
  {
    assert (i + 1) * per == i * per + per;
  }

  ghost predicate Divisible(payload: Bytes, per: int) { exists pieces :: Divides(pieces, per, payload) }

  /** 256 pieces suffice exactly if the count of parts says so. */
  lemma CountIsExact(m: Message, per: nat)
    requires per > 0
    ensures Count(m, per) <= 256 <==> Divisible(m.payload, per)
  {
    CountOfBytes(|m.payload|, per);
    if |m.payload| <= 256 * per { CountDivides(m, per); }
    if Divisible(m.payload, per) {
      var pieces :| Divides(pieces, per, m.payload);
      FlatIsShort(pieces, per);
      MulMonotone(|pieces|, 256, per);
    }
  }

  lemma CountOfBytes(n: nat, per: nat)
    requires per > 0
    ensures (n + per - 1) / per <= 256 <==> n <= 256 * per
  {
    var q := (n + per - 1) / per;
    assert n + per - 1 == q * per + (n + per - 1) % per;
    if q <= 256 { MulMonotone(q, 256, per); } else { MulMonotone(257, q, per); }
  }

  lemma CountDivides(m: Message, per: nat)
    requires per > 0 && Count(m, per) <= 256
    ensures Divisible(m.payload, per)
  {
    var pieces := Cuts(m, per, Count(m, per));
    CutsAreGlued(m, per, Count(m, per));
    GluedIsPayload(m, per);
    forall p <- pieces ensures |p| <= per {
      var i :| 0 <= i < |pieces| && pieces[i] == p;
      PartIsShort(m, per, i);
    }
    assert Divides(pieces, per, m.payload);
  }

  /** A message within the limits of its fields. */
  ghost predicate MessageOk(ok: Syntax, m: Message) {
    m.flags in {0, 1} && m.session != 0 && 1 <= |m.address| <= 1024 && ok(m.address) && |m.payload| <= 4096
  }

  /** A frame of this size has room for at least a byte of payload, and 256 of them for all of it. */
  ghost predicate Carries(m: Message, size: int) {
    && 24 <= size <= 5140 && 20 + |m.address| < size
    && Divisible(m.payload, size - 20 - |m.address|)
  }

  /** Encode takes exactly the messages that are within limits and can be carried; the frame size is to blame exactly
      for the rest of the former. */
  lemma RefusalIsExact(ok: Syntax, m: Message, size: int)
    ensures Refusal(ok, m, size) == None <==> MessageOk(ok, m) && Carries(m, size)
    ensures Refusal(ok, m, size) == Some(FrameSize) <==> MessageOk(ok, m) && !Carries(m, size)
  {
    if Budget(m, size) > 0 { CountIsExact(m, Budget(m, size)); }
  }

  /** The parser accepts exactly the frames of valid fragments. */
  lemma FramesAreExact(ok: Syntax, b: Bytes)
    ensures Parse(ok, b).Ok? <==> exists f :: ValidFragment(ok, f) && Frame(f) == b
  {
    if Parse(ok, b).Ok? {
      FrameOfParse(ok, b);
    } else if f :| ValidFragment(ok, f) && Frame(f) == b {
      ParseOfFrame(ok, f);
    }
  }
}
