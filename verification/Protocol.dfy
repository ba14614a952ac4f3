/**
 * The autocar/2 stream header of internal/protocol/protocol.go.  A reader's input is the byte
 * sequence still to come; `split` stands for net.SplitHostPort yielding a host and a port.
 */
module Protocol {
  import opened Basics
  import opened Wire

  const VERSION: byte := 2
  const MIN_TOKEN: nat := 16
  const MAX_TOKEN: nat := 1024
  const MAX_ADDRESS: nat := 1024
  const MAX_MESSAGE: nat := 1024
  const MAX_RATE: nat := 1_000_000_000_000
  const MAGIC: nat := 0x4155544f
  const HEADER_SIZE: nat := 36
  const KIND_CONNECT: byte := 1
  const KIND_RESPONSE: byte := 2
  const NETWORK_UDP: nat := 4

  datatype Error =
    | BadMagic | BadVersion | BadKind | BadReserved | InvalidLength | BadNetwork | BadStatus | BadAddress
    | BadRate | BadSession | BadPacing | ShortRead | ShortWrite | WriteFailed

  datatype Request = Request(
    network: nat, token: Bytes, address: Bytes, maxTx: nat, maxRx: nat, session: nat, txMode: byte, txProfile: byte)

  datatype Response = Response(
    status: nat, message: Bytes, maxTx: nat, maxRx: nat, session: nat,
    txMode: byte, txProfile: byte, rxMode: byte, rxProfile: byte)

  datatype Head = Head(
    flags: nat, length1: nat, length2: nat, value1: nat, value2: nat, session: nat,
    txMode: byte, txProfile: byte, rxMode: byte, rxProfile: byte)

  /** What fits the fixed-width fields. */
  predicate Fits(h: Head) {
    && h.flags < 0x1_0000 && h.length1 < 0x1_0000 && h.length2 < 0x1_0000
    && h.value1 < 0x1_0000_0000_0000_0000 && h.value2 < 0x1_0000_0000_0000_0000 && h.session < 0x1_0000_0000
  }

  // ---- the header ----

  function HeadBytes(kind: byte, h: Head): (b: Bytes)
    ensures |b| == HEADER_SIZE
  {
    PutBE(4, MAGIC) + [VERSION] + [kind] + PutBE(2, h.flags) + PutBE(2, h.length1) + PutBE(2, h.length2)
    + PutBE(8, h.value1) + PutBE(8, h.value2) + PutBE(4, h.session)
    + [h.txMode] + [h.txProfile] + [h.rxMode] + [h.rxProfile]
  }

  method MakeHeader(kind: byte, h: Head) returns (buffer: array<byte>)
    ensures fresh(buffer) && buffer[..] == HeadBytes(kind, h)
  {
    buffer := new byte[HEADER_SIZE];
    PutFront(buffer, kind, h);
    PutValues(buffer, h);
    Put(buffer, 32, [h.txMode]);
    Put(buffer, 33, [h.txProfile]);
    Put(buffer, 34, [h.rxMode]);
    Put(buffer, 35, [h.rxProfile]);
    assert buffer[..] == buffer[..HEADER_SIZE];
  }

  /** The fields up to the lengths. */
  method PutFront(buffer: array<byte>, kind: byte, h: Head)
    requires buffer.Length == HEADER_SIZE
    modifies buffer
    ensures buffer[..12] == PutBE(4, MAGIC) + [VERSION] + [kind]
                            + PutBE(2, h.flags) + PutBE(2, h.length1) + PutBE(2, h.length2)
  {
    Put(buffer, 0, PutBE(4, MAGIC));
    Put(buffer, 4, [VERSION]);
    Put(buffer, 5, [kind]);
    Put(buffer, 6, PutBE(2, h.flags));
    Put(buffer, 8, PutBE(2, h.length1));
    Put(buffer, 10, PutBE(2, h.length2));
  }

  /** The rates and the session. */
  method PutValues(buffer: array<byte>, h: Head)
    requires buffer.Length == HEADER_SIZE
    modifies buffer
    ensures buffer[..32] == old(buffer[..12]) + PutBE(8, h.value1) + PutBE(8, h.value2) + PutBE(4, h.session)
  {
    Put(buffer, 12, PutBE(8, h.value1));
    Put(buffer, 20, PutBE(8, h.value2));
    Put(buffer, 28, PutBE(4, h.session));
  }

  function ReadHeader(input: Bytes, kind: byte): Result<Head, Error> {
    if |input| < HEADER_SIZE then Err(ShortRead)
    else if GetBE(input[0..4]) != MAGIC then Err(BadMagic)
    else if input[4] != VERSION then Err(BadVersion)
    else if input[5] != kind then Err(BadKind)
    else Ok(Head(GetBE(input[6..8]), GetBE(input[8..10]), GetBE(input[10..12]),
                 GetBE(input[12..20]), GetBE(input[20..28]), GetBE(input[28..32]),
                 input[32], input[33], input[34], input[35]))
  }

  lemma HeadSlices(kind: byte, h: Head, rest: Bytes)
    ensures var w := HeadBytes(kind, h) + rest;
      && w[0..4] == PutBE(4, MAGIC) && w[4] == VERSION && w[5] == kind
      && w[6..8] == PutBE(2, h.flags) && w[8..10] == PutBE(2, h.length1) && w[10..12] == PutBE(2, h.length2)
      && w[12..20] == PutBE(8, h.value1) && w[20..28] == PutBE(8, h.value2) && w[28..32] == PutBE(4, h.session)
      && w[32] == h.txMode && w[33] == h.txProfile && w[34] == h.rxMode && w[35] == h.rxProfile
      && w[36..] == rest
  {
  }

  lemma ReadOfHeader(kind: byte, h: Head, rest: Bytes)
    requires Fits(h)
    ensures ReadHeader(HeadBytes(kind, h) + rest, kind) == Ok(h)
  {
    HeadSlices(kind, h, rest);
    Widths();
    GetPut(4, MAGIC);
    GetPut(2, h.flags);
    GetPut(2, h.length1);
    GetPut(2, h.length2);
    GetPut(8, h.value1);
    GetPut(8, h.value2);
    GetPut(4, h.session);
  }

  lemma HeaderOfRead(kind: byte, input: Bytes)
    requires ReadHeader(input, kind).Ok?
    ensures Fits(ReadHeader(input, kind).value)
    ensures HeadBytes(kind, ReadHeader(input, kind).value) == input[..HEADER_SIZE]
  {
    Widths();
    PutGet(input[0..4]);
    PutGet(input[6..8]);
    PutGet(input[8..10]);
    PutGet(input[10..12]);
    PutGet(input[12..20]);
    PutGet(input[20..28]);
    PutGet(input[28..32]);
    HeaderCut(input);
  }

  lemma HeaderCut(b: Bytes)
    requires |b| >= HEADER_SIZE
    ensures b[..HEADER_SIZE] == b[0..4] + [b[4]] + [b[5]] + b[6..8] + b[8..10] + b[10..12] + b[12..20] + b[20..28]
                              + b[28..32] + [b[32]] + [b[33]] + [b[34]] + [b[35]]
  {
  }

  // ---- requests ----

  function ValidAddress(split: Bytes -> bool, a: Bytes): bool { 0 < |a| <= MAX_ADDRESS && 0 !in a && split(a) }

  /** The checks of WriteRequest, in order. */
  function RequestProblem(split: Bytes -> bool, q: Request): Option<Error> {
    if q.network < 1 || q.network > 4 then Some(BadNetwork)
    else if |q.token| < MIN_TOKEN || |q.token| > MAX_TOKEN then Some(InvalidLength)
    else if q.maxTx > MAX_RATE || q.maxRx > MAX_RATE then Some(BadRate)
    else if q.txMode > 3 || q.txProfile > 3 then Some(BadPacing)
    else if q.network == NETWORK_UDP then (if q.address != [] || q.session == 0 then Some(BadSession) else None)
    else if q.session != 0 then Some(BadSession)
    else if !ValidAddress(split, q.address) then Some(BadAddress)
    else None
  }

  function RequestHead(q: Request): Head {
    Head(q.network, |q.token|, |q.address|, q.maxTx, q.maxRx, q.session, q.txMode, q.txProfile, 0, 0)
  }

  function RequestBytes(q: Request): Bytes { HeadBytes(KIND_CONNECT, RequestHead(q)) + q.token + q.address }

  /** A reader returns the value together with the input it has not consumed. */
  function ReadRequest(split: Bytes -> bool, input: Bytes): Result<(Request, Bytes), Error> {
    var head := ReadHeader(input, KIND_CONNECT);
    if head.Err? then Err(head.error)
    else
      var h, body := head.value, input[HEADER_SIZE..];
      if h.flags < 1 || h.flags > 4 then Err(BadNetwork)
      else if h.length1 < MIN_TOKEN || h.length1 > MAX_TOKEN || h.length2 > MAX_ADDRESS then Err(InvalidLength)
      else if h.value1 > MAX_RATE || h.value2 > MAX_RATE then Err(BadRate)
      else if h.txMode > 3 || h.txProfile > 3 || h.rxMode != 0 || h.rxProfile != 0 then Err(BadPacing)
      else if h.flags == NETWORK_UDP && (h.length2 != 0 || h.session == 0) then Err(BadSession)
      else if h.flags != NETWORK_UDP && (h.length2 == 0 || h.session != 0) then Err(BadSession)
      else if |body| < h.length1 + h.length2 then Err(ShortRead)
      else
        var token, address := body[..h.length1], body[h.length1..h.length1 + h.length2];
        if 0 in address then Err(BadAddress)
        else if h.flags != NETWORK_UDP && !ValidAddress(split, address) then Err(BadAddress)
        else Ok((Request(h.flags, token, address, h.value1, h.value2, h.session, h.txMode, h.txProfile),
                 body[h.length1 + h.length2..]))
  }

  /** Reading what was written returns the same request and leaves the rest of the stream alone. */
  lemma ReadOfRequest(split: Bytes -> bool, q: Request, rest: Bytes)
    requires RequestProblem(split, q) == None && q.session < 0x1_0000_0000
    ensures ReadRequest(split, RequestBytes(q) + rest) == Ok((q, rest))
  {
    var body := q.token + q.address + rest;
    var input := HeadBytes(KIND_CONNECT, RequestHead(q)) + body;
    assert RequestBytes(q) + rest == input;
    ReadOfHeader(KIND_CONNECT, RequestHead(q), body);
    assert input[HEADER_SIZE..] == body;
    BodyCuts(q.token, q.address, rest);
  }

  lemma BodyCuts(token: Bytes, address: Bytes, rest: Bytes)
    ensures var body := token + address + rest;
      && |body| == |token| + |address| + |rest| && body[..|token|] == token
      && body[|token|..|token| + |address|] == address && body[|token| + |address|..] == rest
  {
  }

  /** Whatever the reader accepts is what the writer would have written for it. */
  lemma RequestOfRead(split: Bytes -> bool, input: Bytes)
    requires ReadRequest(split, input).Ok?
    ensures var (q, rest) := ReadRequest(split, input).value;
      RequestProblem(split, q) == None && q.session < 0x1_0000_0000 && RequestBytes(q) + rest == input
  {
    HeaderOfRead(KIND_CONNECT, input);
    var h, body := ReadHeader(input, KIND_CONNECT).value, input[HEADER_SIZE..];
    var (q, rest) := ReadRequest(split, input).value;
    assert RequestHead(q) == h;
    InThree(body, h.length1, h.length2);
    Regroup(input, q.token, q.address, rest);
  }

  lemma Regroup(input: Bytes, a: Bytes, b: Bytes, c: Bytes)
    requires |input| >= HEADER_SIZE && input[HEADER_SIZE..] == a + b + c
    ensures input[..HEADER_SIZE] + a + b + c == input
  {
    assert input == input[..HEADER_SIZE] + input[HEADER_SIZE..];
  }

  /** A request that may go on the wire: a UDP request names a session, any other one an address. */
  ghost predicate RequestOk(split: Bytes -> bool, q: Request) {
    && q.network in {1, 2, 3, 4} && 16 <= |q.token| <= 1024 && q.session < 0x1_0000_0000
    && q.maxTx <= 1_000_000_000_000 && q.maxRx <= 1_000_000_000_000 && q.txMode <= 3 && q.txProfile <= 3
    && (if q.network == 4 then q.address == [] && q.session != 0
        else q.session == 0 && 1 <= |q.address| <= 1024 && 0 !in q.address && split(q.address))
  }

  ghost predicate StartsWithRequest(split: Bytes -> bool, input: Bytes, q: Request, rest: Bytes) {
    RequestOk(split, q) && RequestBytes(q) + rest == input
  }

  /** The reader accepts exactly what starts with the encoding of such a request, and the writer refuses the others. */
  lemma RequestsAreExact(split: Bytes -> bool, input: Bytes, q: Request)
    requires q.session < 0x1_0000_0000
    ensures RequestProblem(split, q) == None <==> RequestOk(split, q)
    ensures ReadRequest(split, input).Ok? <==> exists p, rest :: StartsWithRequest(split, input, p, rest)
  {
    if ReadRequest(split, input).Ok? {
      RequestOfRead(split, input);
      var (p, rest) := ReadRequest(split, input).value;
      assert StartsWithRequest(split, input, p, rest);
    } else if p: Request, rest :| StartsWithRequest(split, input, p, rest) {
      ReadOfRequest(split, p, rest);
    }
  }

  // ---- responses ----

  function ResponseProblem(p: Response): Option<Error> {
    if p.status > 5 then Some(BadStatus)
    else if |p.message| > MAX_MESSAGE || 0 in p.message then Some(InvalidLength)
    else if p.maxTx > MAX_RATE || p.maxRx > MAX_RATE then Some(BadRate)
    else if p.txMode > 3 || p.txProfile > 3 || p.rxMode > 3 || p.rxProfile > 3 then Some(BadPacing)
    else if p.session != 0 && p.status != 0 then Some(BadSession)
    else None
  }

  function ResponseHead(p: Response): Head {
    Head(p.status, |p.message|, 0, p.maxTx, p.maxRx, p.session, p.txMode, p.txProfile, p.rxMode, p.rxProfile)
  }

  function ResponseBytes(p: Response): Bytes { HeadBytes(KIND_RESPONSE, ResponseHead(p)) + p.message }

  function ReadResponse(input: Bytes): Result<(Response, Bytes), Error> {
    var head := ReadHeader(input, KIND_RESPONSE);
    if head.Err? then Err(head.error)
    else
      var h, body := head.value, input[HEADER_SIZE..];
      if h.flags > 5 then Err(BadStatus)
      else if h.length1 > MAX_MESSAGE then Err(InvalidLength)
      else if h.length2 != 0 then Err(BadReserved)
      else if |body| < h.length1 then Err(ShortRead)
      else if 0 in body[..h.length1] then Err(InvalidLength)
      else if h.value1 > MAX_RATE || h.value2 > MAX_RATE then Err(BadRate)
      else if h.txMode > 3 || h.txProfile > 3 || h.rxMode > 3 || h.rxProfile > 3 then Err(BadPacing)
      else if h.session != 0 && h.flags != 0 then Err(BadSession)
      else Ok((Response(h.flags, body[..h.length1], h.value1, h.value2, h.session,
                        h.txMode, h.txProfile, h.rxMode, h.rxProfile), body[h.length1..]))
  }

  lemma ReadOfResponse(p: Response, rest: Bytes)
    requires ResponseProblem(p) == None && p.session < 0x1_0000_0000
    ensures ReadResponse(ResponseBytes(p) + rest) == Ok((p, rest))
  {
    var body := p.message + rest;
    var input := HeadBytes(KIND_RESPONSE, ResponseHead(p)) + body;
    assert ResponseBytes(p) + rest == input;
    ReadOfHeader(KIND_RESPONSE, ResponseHead(p), body);
    assert input[HEADER_SIZE..] == body && body[..|p.message|] == p.message && body[|p.message|..] == rest;
  }

  lemma ResponseOfRead(input: Bytes)
    requires ReadResponse(input).Ok?
    ensures var (p, rest) := ReadResponse(input).value;
      ResponseProblem(p) == None && p.session < 0x1_0000_0000 && ResponseBytes(p) + rest == input
  {
    HeaderOfRead(KIND_RESPONSE, input);
    var h, body := ReadHeader(input, KIND_RESPONSE).value, input[HEADER_SIZE..];
    var (p, rest) := ReadResponse(input).value;
    assert ResponseHead(p) == h;
    Reassembled(input, HeadBytes(KIND_RESPONSE, h), p.message, rest);
  }

  /** A response that may go on the wire: only an accepted request is given a session. */
  ghost predicate ResponseOk(p: Response) {
    && p.status in {0, 1, 2, 3, 4, 5} && |p.message| <= 1024 && 0 !in p.message && p.session < 0x1_0000_0000
    && p.maxTx <= 1_000_000_000_000 && p.maxRx <= 1_000_000_000_000
    && p.txMode <= 3 && p.txProfile <= 3 && p.rxMode <= 3 && p.rxProfile <= 3 && (p.session == 0 || p.status == 0)
  }

  ghost predicate StartsWithResponse(input: Bytes, p: Response, rest: Bytes) {
    ResponseOk(p) && ResponseBytes(p) + rest == input
  }

  /** The reader accepts exactly what starts with the encoding of such a response, and the writer refuses the others. */
  lemma ResponsesAreExact(input: Bytes, p: Response)
    requires p.session < 0x1_0000_0000
    ensures ResponseProblem(p) == None <==> ResponseOk(p)
    ensures ReadResponse(input).Ok? <==> exists r, rest :: StartsWithResponse(input, r, rest)
  {
    if ReadResponse(input).Ok? {
      ResponseOfRead(input);
      var (r, rest) := ReadResponse(input).value;
      assert StartsWithResponse(input, r, rest);
    } else if r: Response, rest :| StartsWithResponse(input, r, rest) {
      ReadOfResponse(r, rest);
    }
  }

  lemma Reassembled(input: Bytes, head: Bytes, message: Bytes, rest: Bytes)
    requires |input| >= HEADER_SIZE && head == input[..HEADER_SIZE] && message + rest == input[HEADER_SIZE..]
    ensures head + message + rest == input
  {
    assert head + message + rest == head + (message + rest);
  }

  // ---- writing under short writes ----

  /** The answer of one Write call: bytes taken (at most those offered) and whether it reported an error. */
  datatype Answer = Answer(taken: nat, failed: bool)

  /** A writer is any function of the call number and the bytes offered. */
  type Writer = (nat, Bytes) -> Answer

  ghost function Flatten(parts: seq<Bytes>): Bytes {
    if parts == [] then [] else parts[0] + Flatten(parts[1..])
  }

  lemma FlattenTwo(a: Bytes, b: Bytes)
    ensures Flatten([a, b]) == a + b
  {
    assert [a, b][1..] == [b] && [b][1..] == [];
    assert Flatten([b]) == b + Flatten([]) == b;
  }

  lemma FlattenThree(a: Bytes, b: Bytes, c: Bytes)
    ensures Flatten([a, b, c]) == a + b + c
  {
    assert [a, b, c][1..] == [b, c];
    FlattenTwo(b, c);
  }

  /** The writer always makes progress and never reports an error. */
  ghost predicate Healthy(w: Writer) {
    forall call: nat, offered: Bytes :: offered != [] ==> 0 < w(call, offered).taken && !w(call, offered).failed
  }

  /** What reached the other side is always a prefix; success means all of it, and a healthy writer succeeds. */
  method WriteAll(w: Writer, parts: seq<Bytes>) returns (sent: Bytes, problem: Option<Error>)
    ensures sent <= Flatten(parts)
    ensures problem == None ==> sent == Flatten(parts)
    ensures Healthy(w) ==> problem == None
  {
    sent, problem := [], None;
    var call: nat := 0;
    for i := 0 to |parts|
      invariant problem == None && sent + Flatten(parts[i..]) == Flatten(parts)
    {
      assert parts[i..][1..] == parts[i + 1..];
      ghost var before := sent;
      var out;
      out, call, problem := WritePart(w, parts[i], call);
      sent := sent + out;
      Continue(before, out, parts[i], Flatten(parts[i + 1..]));
      if problem != None { return; }
    }
  }

  lemma Continue(before: Bytes, out: Bytes, part: Bytes, tail: Bytes)
    requires out <= part
    ensures before + out <= before + (part + tail)
    ensures out == part ==> (before + out) + tail == before + (part + tail)
  {
    assert part == out + part[|out|..];
    assert before + (part + tail) == (before + out) + (part[|out|..] + tail);
  }

  /** The inner loop: one part. */
  method WritePart(w: Writer, part: Bytes, first: nat) returns (sent: Bytes, call: nat, problem: Option<Error>)
    ensures sent <= part && (problem == None ==> sent == part)
    ensures Healthy(w) ==> problem == None
  {
    sent, call, problem := [], first, None;
    var rest := part;
    while |rest| > 0
      invariant sent + rest == part
      decreases |rest|
    {
      var answer := w(call, rest);
      call := call + 1;
      var n := Min(answer.taken, |rest|);
      assert rest == rest[..n] + rest[n..];
      sent, rest := sent + rest[..n], rest[n..];
      if answer.failed { return sent, call, Some(WriteFailed); }
      if n == 0 { return sent, call, Some(ShortWrite); }
    }
  }

  /** WriteRequest never writes part of a request it has not validated. */
  method WriteRequest(w: Writer, split: Bytes -> bool, q: Request) returns (sent: Bytes, problem: Option<Error>)
    ensures RequestProblem(split, q).Some? ==> sent == [] && problem == RequestProblem(split, q)
    ensures sent <= RequestBytes(q)
    ensures problem == None ==> sent == RequestBytes(q)
    ensures Healthy(w) ==> problem == RequestProblem(split, q)
  {
    problem := RequestProblem(split, q);
    if problem != None { return [], problem; }
    var header := MakeHeader(KIND_CONNECT, RequestHead(q));
    var parts := [header[..], q.token, q.address];
    sent, problem := WriteAll(w, parts);
    FlattenThree(header[..], q.token, q.address);
  }

  method WriteResponse(w: Writer, p: Response) returns (sent: Bytes, problem: Option<Error>)
    ensures ResponseProblem(p).Some? ==> sent == [] && problem == ResponseProblem(p)
    ensures sent <= ResponseBytes(p)
    ensures problem == None ==> sent == ResponseBytes(p)
    ensures Healthy(w) ==> problem == ResponseProblem(p)
  {
    problem := ResponseProblem(p);
    if problem != None { return [], problem; }
    var header := MakeHeader(KIND_RESPONSE, ResponseHead(p));
    var parts := [header[..], p.message];
    sent, problem := WriteAll(w, parts);
    FlattenTwo(header[..], p.message);
  }
}
