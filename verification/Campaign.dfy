/**
 * The append-only ledger and the manifest of scripts/stealth-campaign.py, and a step system in which every
 * short write and every crash between two of them is a step of its own.
 *
 * JSON, CSV and the checks of an event's own fields are parameters; the ledger's order, its recovery and the
 * manifest are not.
 */
module Campaign {
  import opened Basics

  type Id = Bytes

  /** `rest` stands for the fields that do not steer the ledger. */
  datatype Event =
    | Started(id: Id, rest: Bytes)
    | Failed(id: Id, rest: Bytes)
    | Completed(id: Id, digest: Bytes, rest: Bytes)

  /** What json.loads makes of a line. */
  datatype Decoded = Malformed | Unsupported | Parsed(event: Event)

  /** A frozen schedule, the JSON codec, the checks of an event's own fields, and the CSV renderer. */
  datatype World = World(samples: seq<Id>, encode: Event -> Bytes, decode: Bytes -> Decoded,
                         valid: Event -> bool, header: Bytes, row: Event -> Bytes)

  const NL: byte := 10
  const CR: byte := 13

  predicate Breaks(b: Bytes) { exists i :: 0 <= i < |b| && (b[i] == NL || b[i] == CR) }

  /** One line of JSON per event; no proper prefix of a JSON object is JSON. */
  ghost predicate Encodes(w: World, e: Event) {
    && w.encode(e) != [] && !Breaks(w.encode(e)) && w.decode(w.encode(e)) == Parsed(e)
    && forall k :: 0 <= k < |w.encode(e)| ==> w.decode(w.encode(e)[..k]) == Malformed
  }

  /** Sample ids are distinct, as build_schedule makes sure. */
  predicate Distinct(w: World) { forall i, j :: 0 <= i < j < |w.samples| ==> w.samples[i] != w.samples[j] }

  /** The schedule is one of build_schedule's and the codec is JSON's. */
  ghost predicate Lawful(w: World) { Distinct(w) && forall e :: Encodes(w, e) }

  // ---- the ledger as bytes ----

  function Record(w: World, e: Event): Bytes { w.encode(e) + [NL] }

  function Print(w: World, es: seq<Event>): Bytes {
    if es == [] then [] else Print(w, es[..|es| - 1]) + Record(w, es[|es| - 1])
  }

  /** Where the last line starts. */
  function Boundary(c: Bytes): (b: nat)
    ensures b <= |c|
  {
    if c == [] then 0 else if c[|c| - 1] == NL then |c| else Boundary(c[..|c| - 1])
  }

  /** recover_final_ledger_tail. */
  function Recover(w: World, c: Bytes): Bytes {
    if c == [] || c[|c| - 1] == NL then c
    else if w.decode(c[Boundary(c)..]).Malformed? then c[..Boundary(c)]
    else c + [NL]
  }

  function FirstBreak(c: Bytes): (i: nat)
    ensures i <= |c| && !Breaks(c[..i]) && (i < |c| ==> c[i] == NL || c[i] == CR)
  {
    if c == [] || c[0] == NL || c[0] == CR then 0
    else
      var i := FirstBreak(c[1..]) + 1;
      assert c[..i] == [c[0]] + c[1..][..i - 1];
      i
  }

  /** What follows the first line. Read as text, a file's lines end at a line feed, a carriage return, or both. */
  function AfterLine(c: Bytes): (rest: Bytes)
    ensures c != [] ==> |rest| < |c|
  {
    var i := FirstBreak(c);
    if i == |c| then []
    else if c[i] == CR && i + 1 < |c| && c[i + 1] == NL then c[i + 2..]
    else c[i + 1..]
  }

  function Lines(c: Bytes): seq<Bytes>
    decreases |c|
  {
    if c == [] then [] else [c[..FirstBreak(c)]] + Lines(AfterLine(c))
  }

  /** The events of these lines, unless some line is none. */
  function EventsOf(w: World, lines: seq<Bytes>): Option<seq<Event>> {
    if lines == [] then Some([])
    else
      var first, others := w.decode(lines[0]), EventsOf(w, lines[1..]);
      if first.Parsed? && others.Some? then Some([first.event] + others.value) else None
  }

  // ---- the ledger as events ----

  predicate IsStart(w: World, e: Event, i: nat) {
    i < |w.samples| && e.Started? && e.id == w.samples[i] && w.valid(e)
  }

  predicate IsDone(w: World, e: Event, i: nat) {
    i < |w.samples| && e.Completed? && e.id == w.samples[i] && w.valid(e)
  }

  function DoneAt(es: seq<Event>, i: nat): Event
    requires 2 * i + 1 < |es|
  {
    es[2 * i + 1]
  }

  function Digest(e: Event): Bytes { if e.Completed? then e.digest else [] }

  predicate NewDigest(es: seq<Event>, i: nat, e: Event)
    requires 2 * i <= |es|
  {
    forall j :: 0 <= j < i ==> Digest(DoneAt(es, j)) != Digest(e)
  }

  /** The `i`-th sample of the schedule started, then completed, with a capture of its own. */
  predicate PairAt(w: World, es: seq<Event>, i: nat)
    requires 2 * i + 1 < |es|
  {
    IsStart(w, es[2 * i], i) && IsDone(w, DoneAt(es, i), i) && NewDigest(es, i, DoneAt(es, i))
  }

  predicate PairsUpTo(w: World, es: seq<Event>, n: nat) {
    2 * n <= |es| && forall i :: 0 <= i < n ==> PairAt(w, es, i)
  }

  /** What a resume accepts: start and completion, start and completion, along the schedule. */
  predicate Paired(w: World, es: seq<Event>) { |es| % 2 == 0 && PairsUpTo(w, es, |es| / 2) }

  /** One attempt is open. */
  predicate Attempting(w: World, es: seq<Event>) {
    |es| % 2 == 1 && PairsUpTo(w, es, |es| / 2) && IsStart(w, es[|es| - 1], |es| / 2)
  }

  /** The last attempt failed. */
  predicate Abandoned(w: World, es: seq<Event>) {
    |es| > 0 && es[|es| - 1].Failed? && Attempting(w, es[..|es| - 1])
  }

  function DoneOf(es: seq<Event>): seq<Event> {
    if es == [] then []
    else DoneOf(es[..|es| - 1]) + if es[|es| - 1].Completed? then [es[|es| - 1]] else []
  }

  function Completions(done: seq<Event>): map<Id, Event> {
    if done == [] then map[] else Completions(done[..|done| - 1])[done[|done| - 1].id := done[|done| - 1]]
  }

  /** load_ledger: the completed samples, unless it refuses. */
  function Load(w: World, c: Bytes): Option<seq<Event>> {
    var es := EventsOf(w, Lines(c));
    if es.Some? && Paired(w, es.value) then Some(DoneOf(es.value)) else None
  }

  // ---- the manifest ----

  /** render_manifest, in schedule order. */
  function RenderRows(w: World, samples: seq<Id>, completed: map<Id, Event>): Bytes {
    if samples == [] then []
    else
      RenderRows(w, samples[..|samples| - 1], completed) +
      if samples[|samples| - 1] in completed then w.row(completed[samples[|samples| - 1]]) else []
  }

  function Render(w: World, completed: map<Id, Event>): Bytes { w.header + RenderRows(w, w.samples, completed) }

  /** Rows in the order in which they are appended. */
  function Appended(w: World, done: seq<Event>): Bytes {
    if done == [] then w.header else Appended(w, done[..|done| - 1]) + w.row(done[|done| - 1])
  }

  // ---- the step system ----

  datatype Proc =
    | Down
    | Refused
    | Loaded(done: seq<Event>)
    | Repairing(done: seq<Event>, rest: Bytes)                // appending the manifest's missing suffix
    | Ready(done: seq<Event>)
    | Logging(done: seq<Event>, event: Event, rest: Bytes)    // appending a record to the ledger
    | Capturing(done: seq<Event>)
    | Adding(done: seq<Event>, rest: Bytes)                   // appending the newest row to the manifest

  /** `log` holds the records ever written in full, newline included or restored; `tail` is what is written of
      `pending`, the record being appended or interrupted by a crash. */
  datatype Campaign = Campaign(ledger: Bytes, manifest: Option<Bytes>, proc: Proc,
                               log: seq<Event>, pending: Option<Event>, tail: Bytes)

  function Init(): Campaign { Campaign([], None, Down, [], None, []) }

  datatype Step =
    | Boot                    // recover the tail and load the ledger
    | Reconcile
    | Repair(count: nat)      // each of these is one os.write of `count` bytes
    | Start(event: Event)
    | Write(count: nat)
    | Fail(event: Event)
    | Complete(event: Event)
    | Add(count: nat)
    | Crash

  predicate Running(p: Proc) { !p.Down? && !p.Refused? }

  predicate Enabled(w: World, s: Campaign, step: Step) {
    match step
    case Boot => !Running(s.proc)
    case Reconcile => s.proc.Loaded?
    case Repair(k) => s.proc.Repairing? && s.manifest.Some? && 0 < k <= |s.proc.rest|
    case Start(e) => s.proc.Ready? && IsStart(w, e, |s.proc.done|)
    case Write(k) => s.proc.Logging? && 0 < k <= |s.proc.rest|
    case Fail(e) => s.proc.Capturing? && e.Failed?
    case Complete(e) =>
      s.proc.Capturing? && IsDone(w, e, |s.proc.done|) &&
      forall d :: d in s.proc.done ==> Digest(d) != Digest(e)
    case Add(k) => s.proc.Adding? && s.manifest.Some? && 0 < k <= |s.proc.rest|
    case Crash => true
  }

  /** Opening the ledger: recovery decides the fate of the pending record. */
  function Opened(w: World, s: Campaign): Campaign {
    var kept := s.pending.Some? && s.tail == w.encode(s.pending.value);
    s.(ledger := Recover(w, s.ledger), log := if kept then s.log + [s.pending.value] else s.log,
       pending := None, tail := [])
  }

  function Boots(w: World, s: Campaign): Campaign {
    var done := Load(w, Recover(w, s.ledger));
    Opened(w, s).(proc := if done.Some? then Loaded(done.value) else Refused)
  }

  function Reconciled(w: World, s: Campaign): Campaign
    requires s.proc.Loaded?
  {
    var expected := Render(w, Completions(s.proc.done));
    if s.manifest.None? then s.(manifest := Some(expected), proc := Ready(s.proc.done))
    else
      var current := s.manifest.value;
      if !(current <= expected) then s.(proc := Refused)
      else if current == expected then s.(proc := Ready(s.proc.done))
      else s.(proc := Repairing(s.proc.done, expected[|current|..]))
  }

  function Logs(w: World, s: Campaign, done: seq<Event>, e: Event): Campaign {
    s.(proc := Logging(done, e, Record(w, e)), pending := Some(e), tail := [])
  }

  /** What the process does after a record is complete. */
  function AfterRecord(w: World, done: seq<Event>, e: Event): Proc {
    match e
    case Started(_, _) => Capturing(done)
    case Failed(_, _) => Down
    case Completed(_, _, _) => if w.row(e) == [] then Ready(done + [e]) else Adding(done + [e], w.row(e))
  }

  function Written(w: World, s: Campaign, k: nat): Campaign
    requires s.proc.Logging? && k <= |s.proc.rest|
  {
    var chunk, left := s.proc.rest[..k], s.proc.rest[k..];
    var t := s.(ledger := s.ledger + chunk);
    if left != [] then t.(proc := Logging(s.proc.done, s.proc.event, left), tail := s.tail + chunk)
    else
      t.(proc := AfterRecord(w, s.proc.done, s.proc.event), log := s.log + [s.proc.event], pending := None, tail := [])
  }

  function Extended(s: Campaign, done: seq<Event>, rest: Bytes, k: nat, more: Proc): Campaign
    requires s.manifest.Some? && k <= |rest|
  {
    s.(manifest := Some(s.manifest.value + rest[..k]), proc := if k < |rest| then more else Ready(done))
  }

  function Apply(w: World, s: Campaign, step: Step): Campaign
    requires Enabled(w, s, step)
  {
    match step
    case Boot => Boots(w, s)
    case Reconcile => Reconciled(w, s)
    case Repair(k) => Extended(s, s.proc.done, s.proc.rest, k, Repairing(s.proc.done, s.proc.rest[k..]))
    case Start(e) => Logs(w, s, s.proc.done, e)
    case Write(k) => Written(w, s, k)
    case Fail(e) => Logs(w, s, s.proc.done, e)
    case Complete(e) => Logs(w, s, s.proc.done, e)
    case Add(k) => Extended(s, s.proc.done, s.proc.rest, k, Adding(s.proc.done, s.proc.rest[k..]))
    case Crash => s.(proc := Down)
  }

  ghost predicate Reaches(w: World, from: Campaign, steps: seq<Step>, s: Campaign)
    decreases |steps|
  {
    if steps == [] then s == from
    else Enabled(w, from, steps[0]) && Reaches(w, Apply(w, from, steps[0]), steps[1..], s)
  }

  // ---- the invariant ----

  predicate History(w: World, log: seq<Event>) { Paired(w, log) || Attempting(w, log) || Abandoned(w, log) }

  /** `e` may be recorded next. */
  predicate MayFollow(w: World, log: seq<Event>, e: Event) {
    (Paired(w, log) && IsStart(w, e, |log| / 2)) ||
    (Attempting(w, log) && (e.Failed? || (IsDone(w, e, |log| / 2) && NewDigest(log, |log| / 2, e))))
  }

  /** The ledger holds the log and a proper prefix of the pending record. */
  predicate LedgerInv(w: World, ledger: Bytes, log: seq<Event>, pending: Option<Event>, tail: Bytes) {
    && ledger == Print(w, log) + tail && History(w, log)
    && (match pending
        case None => tail == []
        case Some(e) => MayFollow(w, log, e) && |tail| <= |w.encode(e)| && tail == w.encode(e)[..|tail|])
  }

  predicate ManifestInv(w: World, manifest: Option<Bytes>, log: seq<Event>) {
    manifest.Some? ==> manifest.value <= Appended(w, DoneOf(log))
  }

  predicate ProcInv(w: World, s: Campaign) {
    match s.proc
    case Down => true
    case Refused => s.pending.None? && !Paired(w, s.log)
    case Loaded(done) => s.pending.None? && Paired(w, s.log) && done == DoneOf(s.log)
    case Repairing(done, rest) =>
      s.pending.None? && Paired(w, s.log) && done == DoneOf(s.log) && s.manifest.Some? &&
      s.manifest.value + rest == Appended(w, done)
    case Ready(done) =>
      s.pending.None? && Paired(w, s.log) && done == DoneOf(s.log) && s.manifest == Some(Appended(w, done))
    case Logging(done, e, rest) =>
      s.pending == Some(e) && done == DoneOf(s.log) && s.manifest == Some(Appended(w, done)) &&
      rest != [] && s.tail + rest == Record(w, e)
    case Capturing(done) =>
      s.pending.None? && Attempting(w, s.log) && done == DoneOf(s.log) && s.manifest == Some(Appended(w, done))
    case Adding(done, rest) =>
      s.pending.None? && Paired(w, s.log) && done == DoneOf(s.log) && s.manifest.Some? &&
      s.manifest.value + rest == Appended(w, done)
  }

  predicate Inv(w: World, s: Campaign) {
    LedgerInv(w, s.ledger, s.log, s.pending, s.tail) && ManifestInv(w, s.manifest, s.log) && ProcInv(w, s)
  }
}
