/**
 * The classic-DNS framing checker of cmd/autocar/doctor_dns.go, against the grammar of section 4.1 of
 * RFC 1035: a header, one question, and the declared records with nothing after them.
 *
 * What is said of whole messages is generic in the records: `well` tells which records there are, `spell`
 * spells one, and `end` finds where the record at an offset ends.
 */
module DnsFraming {
  import opened Basics
  import opened DnsGrammar

  // ---- the grammar ----

  /** Which bodies, as bytes, a record type may carry. */
  type Bodies = (nat, Bytes) -> bool

  /** `meta` is the class and the time to live. */
  datatype Record = Record(owner: Name, typ: nat, meta: Bytes, data: Bytes)

  predicate WellRecord(r: Record, size: nat, bodies: Bodies) {
    WellName(r.owner, size) && r.typ < 0x1_0000 && |r.meta| == 6 && |r.data| < 0x1_0000 && bodies(r.typ, r.data)
  }

  /** What follows a record's owner. */
  function PrintFixed(typ: nat, meta: Bytes, data: Bytes): Bytes { Put16(typ) + meta + Put16(|data|) + data }

  function PrintRecord(r: Record): Bytes { PrintName(r.owner) + PrintFixed(r.typ, r.meta, r.data) }

  function PrintAll(rs: seq<Record>, spell: Record -> Bytes): Bytes {
    if rs == [] then [] else spell(rs[0]) + PrintAll(rs[1..], spell)
  }

  predicate AllWell(rs: seq<Record>, well: Record -> bool) { forall i :: 0 <= i < |rs| ==> well(rs[i]) }

  /** `start` is the identifier and the flags, `asked` the question's type and class. */
  datatype Message = Message(start: Bytes, question: Name, asked: Bytes,
                             answers: seq<Record>, authorities: seq<Record>, additionals: seq<Record>)

  predicate WellMessage(m: Message, size: nat, well: Record -> bool) {
    && 12 <= size <= 512
    && |m.start| == 4 && |m.asked| == 4 && WellName(m.question, size)
    && |m.answers| < 0x1_0000 && |m.authorities| < 0x1_0000 && |m.additionals| < 0x1_0000
    && AllWell(m.answers, well) && AllWell(m.authorities, well) && AllWell(m.additionals, well)
  }

  /** The fixed header, with one question and the true number of records in each section. */
  function PrintHeader(m: Message): Bytes {
    m.start + Put16(1) + Put16(|m.answers|) + Put16(|m.authorities|) + Put16(|m.additionals|)
  }

  function PrintMessage(m: Message, spell: Record -> Bytes): Bytes {
    PrintHeader(m) +
    (PrintName(m.question) + (m.asked +
    (PrintAll(m.answers, spell) + (PrintAll(m.authorities, spell) + PrintAll(m.additionals, spell)))))
  }

  ghost predicate IsSpelling(wire: Bytes, well: Record -> bool, spell: Record -> Bytes) {
    exists m :: WellMessage(m, |wire|, well) && PrintMessage(m, spell) == wire
  }

  /** Bodies of known types follow their grammar, with compression pointers inside a message of `size` bytes;
      bodies of other types are opaque. */
  ghost function KnownBodies(size: nat): Bodies { (typ: nat, data: Bytes) => IsBody(typ, data, size) }

  /** The records of a message of `size` bytes. */
  ghost function Records(size: nat): Record -> bool { (r: Record) => WellRecord(r, size, KnownBodies(size)) }

  /** `wire` is the spelling of some message. */
  ghost predicate IsMessage(wire: Bytes) { IsSpelling(wire, Records(|wire|), PrintRecord) }

  // ---- the checker as functions ----

  function RecordEnd(wire: Bytes, off: nat, bodies: Bodies): (r: Option<nat>)
    ensures r.Some? ==> off < r.value <= |wire|
  {
    var owner := NameEnd(wire, off, |wire|);
    if owner.None? || owner.value + 10 > |wire| then None
    else
      var start := owner.value + 10;
      var end := start + U16(wire, start - 2);
      if end > |wire| || !bodies(U16(wire, start - 10), wire[start..end]) then None else Some(end)
  }

  type Ends = nat -> Option<nat>

  /** Where `count` records from `off` on end. */
  function AllEnd(off: nat, count: nat, end: Ends): Option<nat>
    decreases count
  {
    if count == 0 then Some(off)
    else if end(off).None? then None
    else AllEnd(end(off).value, count - 1, end)
  }

  /** The sections whose counts stand at `section`, `section` + 2, … in the header. */
  function SectionsEnd(wire: Bytes, off: nat, section: nat, end: Ends): Option<nat>
    requires 12 <= |wire| && section % 2 == 0
    decreases 12 - section
  {
    if section >= 12 then Some(off)
    else
      var next := AllEnd(off, U16(wire, section), end);
      if next.None? then None else SectionsEnd(wire, next.value, section + 2, end)
  }

  predicate Framed(wire: Bytes, end: Ends) {
    12 <= |wire| <= 512 && U16(wire, 4) == 1 &&
    var question := NameEnd(wire, 12, |wire|);
    question.Some? && question.value + 4 <= |wire| && SectionsEnd(wire, question.value + 4, 6, end) == Some(|wire|)
  }

  // ---- records ----

  /** The fixed part of a record and its body, in place. */
  lemma FixedHere(wire: Bytes, off: nat, typ: nat, meta: Bytes, body: Bytes)
    requires typ < 0x1_0000 && |meta| == 6 && |body| < 0x1_0000
    ensures Here(wire, off, PrintFixed(typ, meta, body)) <==>
            off + 10 <= |wire| && U16(wire, off) == typ && Here(wire, off + 2, meta) && U16(wire, off + 8) == |body| &&
            Here(wire, off + 10, body)
  {
    HereConcat(wire, off, Put16(typ) + meta + Put16(|body|), body);
    HereConcat(wire, off, Put16(typ) + meta, Put16(|body|));
    HereConcat(wire, off, Put16(typ), meta);
    Here16(wire, off, typ);
    Here16(wire, off + 8, |body|);
  }

  /** The parts of a record, in place. */
  predicate FieldsHere(wire: Bytes, off: nat, r: Record) {
    var o := off + |PrintName(r.owner)|;
    && Here(wire, off, PrintName(r.owner)) && o + 10 <= |wire|
    && U16(wire, o) == r.typ && Here(wire, o + 2, r.meta) && U16(wire, o + 8) == |r.data| && Here(wire, o + 10, r.data)
  }

  lemma RecordHere(wire: Bytes, off: nat, r: Record)
    requires r.typ < 0x1_0000 && |r.meta| == 6 && |r.data| < 0x1_0000
    ensures Here(wire, off, PrintRecord(r)) <==> FieldsHere(wire, off, r)
    ensures |PrintRecord(r)| == |PrintName(r.owner)| + 10 + |r.data|
  {
    FixedHere(wire, off + |PrintName(r.owner)|, r.typ, r.meta, r.data);
    HereConcat(wire, off, PrintName(r.owner), PrintFixed(r.typ, r.meta, r.data));
  }

  lemma RecordParsed(wire: Bytes, off: nat, bodies: Bodies) returns (r: Record)
    requires RecordEnd(wire, off, bodies).Some?
    ensures WellRecord(r, |wire|, bodies) && Here(wire, off, PrintRecord(r))
    ensures RecordEnd(wire, off, bodies) == Some(off + |PrintRecord(r)|)
  {
    var owner := NameParsed(wire, off, |wire|);
    r := RecordAt(wire, off, owner);
    RecordHere(wire, off, r);
  }

  /** The record whose owner stands at `off`, cut out of the wire. */
  lemma RecordAt(wire: Bytes, off: nat, owner: Name) returns (r: Record)
    requires Here(wire, off, PrintName(owner))
    requires var o := off + |PrintName(owner)|; o + 10 <= |wire| && o + 10 + U16(wire, o + 8) <= |wire|
    ensures var o := off + |PrintName(owner)|;
            && r.owner == owner && r.typ == U16(wire, o) && |r.meta| == 6
            && r.data == wire[o + 10..o + 10 + U16(wire, o + 8)] && FieldsHere(wire, off, r)
  {
    var o := off + |PrintName(owner)|;
    var typ, length := U16(wire, o), U16(wire, o + 8);
    HereSlice(wire, o + 2, 6);
    HereSlice(wire, o + 10, length);
    r := Record(owner, typ, wire[o + 2..o + 8], wire[o + 10..o + 10 + length]);
  }

  lemma FieldsEnd(wire: Bytes, off: nat, r: Record, bodies: Bodies)
    requires FieldsHere(wire, off, r) && WellName(r.owner, |wire|) && bodies(r.typ, r.data)
    ensures RecordEnd(wire, off, bodies) == Some(off + |PrintName(r.owner)| + 10 + |r.data|)
  {
    NamePrinted(wire, off, |wire|, r.owner);
    HereIsSlice(wire, off + |PrintName(r.owner)| + 10, r.data);
  }

  lemma RecordPrinted(wire: Bytes, off: nat, r: Record, bodies: Bodies)
    requires WellRecord(r, |wire|, bodies) && Here(wire, off, PrintRecord(r))
    ensures RecordEnd(wire, off, bodies) == Some(off + |PrintRecord(r)|)
  {
    RecordHere(wire, off, r);
    FieldsEnd(wire, off, r, bodies);
  }

  // ---- sections ----

  /** Where `end` finds the end of a record, there is one. */
  ghost predicate ParsesAt(wire: Bytes, off: nat, well: Record -> bool, spell: Record -> Bytes, end: Ends) {
    end(off).Some? ==> exists r :: well(r) && Here(wire, off, spell(r)) && end(off) == Some(off + |spell(r)|)
  }

  /** Where a record stands, `end` finds its end. */
  predicate PrintsAt(wire: Bytes, off: nat, r: Record, well: Record -> bool, spell: Record -> Bytes, end: Ends) {
    well(r) && Here(wire, off, spell(r)) ==> end(off) == Some(off + |spell(r)|)
  }

  /** `end` finds exactly the records. */
  ghost predicate Exact(wire: Bytes, well: Record -> bool, spell: Record -> Bytes, end: Ends) {
    && (forall off: nat :: ParsesAt(wire, off, well, spell, end))
    && (forall off: nat, r :: PrintsAt(wire, off, r, well, spell, end))
  }

  /** These records stand at `off` and end at `next`. */
  predicate AllHere(wire: Bytes, off: nat, next: nat, rs: seq<Record>, spell: Record -> Bytes) {
    Here(wire, off, PrintAll(rs, spell)) && off + |PrintAll(rs, spell)| == next
  }

  lemma OneParsed(wire: Bytes, off: nat, well: Record -> bool, spell: Record -> Bytes, end: Ends) returns (r: Record)
    requires Exact(wire, well, spell, end) && end(off).Some?
    ensures well(r) && Here(wire, off, spell(r)) && end(off) == Some(off + |spell(r)|)
  {
    assert ParsesAt(wire, off, well, spell, end);
    r :| well(r) && Here(wire, off, spell(r)) && end(off) == Some(off + |spell(r)|);
  }

  lemma {:induction false} AllParsed(wire: Bytes, off: nat, count: nat,
                                     well: Record -> bool, spell: Record -> Bytes, end: Ends)
      returns (rs: seq<Record>)
    requires off <= |wire| && AllEnd(off, count, end).Some? && Exact(wire, well, spell, end)
    ensures |rs| == count && AllWell(rs, well) && AllHere(wire, off, AllEnd(off, count, end).value, rs, spell)
    decreases count
  {
    if count == 0 {
      rs := [];
    } else {
      var r := OneParsed(wire, off, well, spell, end);
      var rest := AllParsed(wire, off + |spell(r)|, count - 1, well, spell, end);
      rs := [r] + rest;
      assert rs[1..] == rest;
      HereConcat(wire, off, spell(r), PrintAll(rest, spell));
    }
  }

  lemma {:induction false} AllPrinted(wire: Bytes, off: nat, next: nat, rs: seq<Record>,
                                      well: Record -> bool, spell: Record -> Bytes, end: Ends)
    requires AllWell(rs, well) && AllHere(wire, off, next, rs, spell) && Exact(wire, well, spell, end)
    ensures AllEnd(off, |rs|, end) == Some(next)
    decreases |rs|
  {
    if rs == [] {
    } else {
      HereConcat(wire, off, spell(rs[0]), PrintAll(rs[1..], spell));
      assert PrintsAt(wire, off, rs[0], well, spell, end);
      AllPrinted(wire, off + |spell(rs[0])|, next, rs[1..], well, spell, end);
    }
  }

  /** The three sections, one after the other. */
  lemma SectionsInOrder(wire: Bytes, off: nat, end: Ends)
    requires 12 <= |wire|
    ensures SectionsEnd(wire, off, 6, end) ==
            var a := AllEnd(off, U16(wire, 6), end);
            if a.None? then None
            else
              var b := AllEnd(a.value, U16(wire, 8), end);
              if b.None? then None else AllEnd(b.value, U16(wire, 10), end)
  {
    var a := AllEnd(off, U16(wire, 6), end);
    if a.Some? {
      var b := AllEnd(a.value, U16(wire, 8), end);
      if b.Some? {
        var c := AllEnd(b.value, U16(wire, 10), end);
        if c.Some? { assert SectionsEnd(wire, c.value, 12, end) == Some(c.value); }
        assert SectionsEnd(wire, b.value, 10, end) == c;
      }
      assert SectionsEnd(wire, a.value, 8, end) == if b.None? then None else AllEnd(b.value, U16(wire, 10), end);
    }
  }

  // ---- whole messages ----

  lemma HeaderHere(wire: Bytes, m: Message)
    requires |m.start| == 4
    requires |m.answers| < 0x1_0000 && |m.authorities| < 0x1_0000 && |m.additionals| < 0x1_0000
    ensures Here(wire, 0, PrintHeader(m)) <==>
            12 <= |wire| && Here(wire, 0, m.start) && U16(wire, 4) == 1 && U16(wire, 6) == |m.answers| &&
            U16(wire, 8) == |m.authorities| && U16(wire, 10) == |m.additionals|
  {
    var s := m.start;
    HereConcat(wire, 0, s + Put16(1) + Put16(|m.answers|) + Put16(|m.authorities|), Put16(|m.additionals|));
    HereConcat(wire, 0, s + Put16(1) + Put16(|m.answers|), Put16(|m.authorities|));
    HereConcat(wire, 0, s + Put16(1), Put16(|m.answers|));
    HereConcat(wire, 0, s, Put16(1));
    Here16(wire, 4, 1);
    Here16(wire, 6, |m.answers|);
    Here16(wire, 8, |m.authorities|);
    Here16(wire, 10, |m.additionals|);
  }

  /** The header, the question and the sections of `m` stand in their places, with nothing after them. */
  predicate PartsHere(wire: Bytes, m: Message, spell: Record -> Bytes) {
    var q := 16 + |PrintName(m.question)|;
    var a := q + |PrintAll(m.answers, spell)|;
    var b := a + |PrintAll(m.authorities, spell)|;
    12 <= |wire| && Here(wire, 0, m.start) && U16(wire, 4) == 1 && U16(wire, 6) == |m.answers| &&
    U16(wire, 8) == |m.authorities| && U16(wire, 10) == |m.additionals| &&
    Here(wire, 12, PrintName(m.question)) && Here(wire, q - 4, m.asked) &&
    AllHere(wire, q, a, m.answers, spell) && AllHere(wire, a, b, m.authorities, spell) &&
    AllHere(wire, b, |wire|, m.additionals, spell)
  }

  lemma MessageHere(wire: Bytes, m: Message, spell: Record -> Bytes)
    requires |m.start| == 4 && |m.asked| == 4
    requires |m.answers| < 0x1_0000 && |m.authorities| < 0x1_0000 && |m.additionals| < 0x1_0000
    ensures PrintMessage(m, spell) == wire <==> PartsHere(wire, m, spell)
  {
    HeaderHere(wire, m);
    SixParts(wire, PrintHeader(m), PrintName(m.question), m.asked,
             PrintAll(m.answers, spell), PrintAll(m.authorities, spell), PrintAll(m.additionals, spell));
  }

  lemma SixParts(wire: Bytes, h: Bytes, n: Bytes, c: Bytes, r1: Bytes, r2: Bytes, r3: Bytes)
    requires |h| == 12 && |c| == 4
    ensures h + (n + (c + (r1 + (r2 + r3)))) == wire <==>
            Here(wire, 0, h) && Here(wire, 12, n) && Here(wire, 12 + |n|, c) && Here(wire, 16 + |n|, r1) &&
            Here(wire, 16 + |n| + |r1|, r2) && Here(wire, 16 + |n| + |r1| + |r2|, r3) &&
            16 + |n| + |r1| + |r2| + |r3| == |wire|
  {
    Whole(wire, h + (n + (c + (r1 + (r2 + r3)))));
    HereConcat(wire, 0, h, n + (c + (r1 + (r2 + r3))));
    HereConcat(wire, 12, n, c + (r1 + (r2 + r3)));
    HereConcat(wire, 12 + |n|, c, r1 + (r2 + r3));
    HereConcat(wire, 16 + |n|, r1, r2 + r3);
    HereConcat(wire, 16 + |n| + |r1|, r2, r3);
  }

  lemma SectionsParsed(wire: Bytes, off: nat, well: Record -> bool, spell: Record -> Bytes, end: Ends)
      returns (a: nat, b: nat, r1: seq<Record>, r2: seq<Record>, r3: seq<Record>)
    requires 12 <= |wire| && off <= |wire| && SectionsEnd(wire, off, 6, end) == Some(|wire|)
    requires Exact(wire, well, spell, end)
    ensures |r1| == U16(wire, 6) && |r2| == U16(wire, 8) && |r3| == U16(wire, 10)
    ensures AllWell(r1, well) && AllWell(r2, well) && AllWell(r3, well)
    ensures AllHere(wire, off, a, r1, spell) && AllHere(wire, a, b, r2, spell) && AllHere(wire, b, |wire|, r3, spell)
  {
    SectionsInOrder(wire, off, end);
    r1 := AllParsed(wire, off, U16(wire, 6), well, spell, end);
    a := off + |PrintAll(r1, spell)|;
    r2 := AllParsed(wire, a, U16(wire, 8), well, spell, end);
    b := a + |PrintAll(r2, spell)|;
    r3 := AllParsed(wire, b, U16(wire, 10), well, spell, end);
  }

  lemma SectionsPrinted(wire: Bytes, off: nat, a: nat, b: nat, m: Message,
                        well: Record -> bool, spell: Record -> Bytes, end: Ends)
    requires 12 <= |wire| && Exact(wire, well, spell, end)
    requires |m.answers| == U16(wire, 6) && |m.authorities| == U16(wire, 8) && |m.additionals| == U16(wire, 10)
    requires AllWell(m.answers, well) && AllWell(m.authorities, well) && AllWell(m.additionals, well)
    requires AllHere(wire, off, a, m.answers, spell) && AllHere(wire, a, b, m.authorities, spell)
    requires AllHere(wire, b, |wire|, m.additionals, spell)
    ensures SectionsEnd(wire, off, 6, end) == Some(|wire|)
  {
    AllPrinted(wire, off, a, m.answers, well, spell, end);
    AllPrinted(wire, a, b, m.authorities, well, spell, end);
    AllPrinted(wire, b, |wire|, m.additionals, well, spell, end);
    SectionsInOrder(wire, off, end);
  }

  lemma FramedIsSpelling(wire: Bytes, well: Record -> bool, spell: Record -> Bytes, end: Ends)
    requires Framed(wire, end) && Exact(wire, well, spell, end)
    ensures IsSpelling(wire, well, spell)
  {
    var n := NameParsed(wire, 12, |wire|);
    var q := 16 + |PrintName(n)|;
    var a, b, r1, r2, r3 := SectionsParsed(wire, q, well, spell, end);
    SpellingOfParts(wire, n, q, a, b, r1, r2, r3, well, spell);
  }

  lemma SpellingOfParts(wire: Bytes, n: Name, q: nat, a: nat, b: nat, r1: seq<Record>, r2: seq<Record>, r3: seq<Record>,
                        well: Record -> bool, spell: Record -> Bytes)
    requires 12 <= |wire| <= 512 && U16(wire, 4) == 1 && WellName(n, |wire|) && Here(wire, 12, PrintName(n))
    requires q == 16 + |PrintName(n)| <= |wire|
    requires |r1| == U16(wire, 6) && |r2| == U16(wire, 8) && |r3| == U16(wire, 10)
    requires AllWell(r1, well) && AllWell(r2, well) && AllWell(r3, well)
    requires AllHere(wire, q, a, r1, spell) && AllHere(wire, a, b, r2, spell) && AllHere(wire, b, |wire|, r3, spell)
    ensures IsSpelling(wire, well, spell)
  {
    PartsAreHere(wire, n, q, a, b, r1, r2, r3, spell);
    SpellingOf(wire, Message(wire[..4], n, wire[q - 4..q], r1, r2, r3), well, spell);
  }

  lemma PartsAreHere(wire: Bytes, n: Name, q: nat, a: nat, b: nat, r1: seq<Record>, r2: seq<Record>, r3: seq<Record>,
                     spell: Record -> Bytes)
    requires 12 <= |wire| && U16(wire, 4) == 1 && Here(wire, 12, PrintName(n)) && q == 16 + |PrintName(n)| <= |wire|
    requires |r1| == U16(wire, 6) && |r2| == U16(wire, 8) && |r3| == U16(wire, 10)
    requires AllHere(wire, q, a, r1, spell) && AllHere(wire, a, b, r2, spell) && AllHere(wire, b, |wire|, r3, spell)
    ensures PartsHere(wire, Message(wire[..4], n, wire[q - 4..q], r1, r2, r3), spell)
  {
    HereSlice(wire, 0, 4);
    HereSlice(wire, q - 4, 4);
  }

  lemma SpellingOf(wire: Bytes, m: Message, well: Record -> bool, spell: Record -> Bytes)
    requires WellMessage(m, |wire|, well) && PartsHere(wire, m, spell)
    ensures IsSpelling(wire, well, spell)
  {
    MessageHere(wire, m, spell);
  }

  lemma SpellingIsFramed(wire: Bytes, m: Message, well: Record -> bool, spell: Record -> Bytes, end: Ends)
    requires WellMessage(m, |wire|, well) && PartsHere(wire, m, spell) && Exact(wire, well, spell, end)
    ensures Framed(wire, end)
  {
    NamePrinted(wire, 12, |wire|, m.question);
    var q := 16 + |PrintName(m.question)|;
    var a := q + |PrintAll(m.answers, spell)|;
    var b := a + |PrintAll(m.authorities, spell)|;
    SectionsPrinted(wire, q, a, b, m, well, spell, end);
  }

  lemma FramedExactly(wire: Bytes, well: Record -> bool, spell: Record -> Bytes, end: Ends)
    requires Exact(wire, well, spell, end)
    ensures Framed(wire, end) <==> IsSpelling(wire, well, spell)
  {
    if Framed(wire, end) { FramedIsSpelling(wire, well, spell, end); }
    if IsSpelling(wire, well, spell) {
      var m :| WellMessage(m, |wire|, well) && PrintMessage(m, spell) == wire;
      MessageHere(wire, m, spell);
      SpellingIsFramed(wire, m, well, spell, end);
    }
  }

  /** Where the record at an offset of this wire ends. */
  ghost function RecordEnds(wire: Bytes): Ends { (off: nat) => RecordEnd(wire, off, KnownBodies(|wire|)) }

  lemma RecordsAreExact(wire: Bytes)
    ensures Exact(wire, Records(|wire|), PrintRecord, RecordEnds(wire))
  {
    var well, end := Records(|wire|), RecordEnds(wire);
    forall off: nat ensures ParsesAt(wire, off, well, PrintRecord, end) { RecordParsesAt(wire, off); }
    forall off: nat, r ensures PrintsAt(wire, off, r, well, PrintRecord, end) { RecordPrintsAt(wire, off, r); }
  }

  lemma RecordParsesAt(wire: Bytes, off: nat)
    ensures ParsesAt(wire, off, Records(|wire|), PrintRecord, RecordEnds(wire))
  {
    if RecordEnds(wire)(off).Some? {
      var r := RecordParsed(wire, off, KnownBodies(|wire|));
      assert Records(|wire|)(r) && RecordEnds(wire)(off) == Some(off + |PrintRecord(r)|);
    }
  }

  lemma RecordPrintsAt(wire: Bytes, off: nat, r: Record)
    ensures PrintsAt(wire, off, r, Records(|wire|), PrintRecord, RecordEnds(wire))
  {
    if Records(|wire|)(r) && Here(wire, off, PrintRecord(r)) { RecordPrinted(wire, off, r, KnownBodies(|wire|)); }
  }

  // ---- the checker as loops ----

  method WireRecord(wire: Bytes, start: nat) returns (off: nat, ok: bool)
    ensures (if ok then Some(off) else None) == RecordEnds(wire)(start)
  {
    off, ok := WireName(wire, start, |wire|);
    if !ok || off + 10 > |wire| { return off, false; }
    var typ, length := U16(wire, off), U16(wire, off + 8);
    off := off + 10;
    var end := off + length;
    if end > |wire| { return off, false; }
    ok := WireBody(wire, typ, off, end);
    off := end;
  }

  lemma AllStep(off: nat, count: nat, end: Ends, next: Option<nat>)
    requires count > 0 && next == end(off)
    ensures next.None? ==> AllEnd(off, count, end) == None
    ensures next.Some? ==> AllEnd(off, count, end) == AllEnd(next.value, count - 1, end)
  {
  }

  /** The inner loop: one section. */
  method WireRecords(wire: Bytes, start: nat, count: nat) returns (off: nat, ok: bool)
    ensures (if ok then Some(off) else None) == AllEnd(start, count, RecordEnds(wire))
  {
    ghost var goal := AllEnd(start, count, RecordEnds(wire));
    off, ok := start, true;
    for i := 0 to count
      invariant ok && AllEnd(off, count - i, RecordEnds(wire)) == goal
    {
      ghost var from := off;
      off, ok := WireRecord(wire, off);
      if !ok {
        AllStep(from, count - i, RecordEnds(wire), None);
        return;
      }
      AllStep(from, count - i, RecordEnds(wire), Some(off));
    }
  }

  lemma SectionsStep(wire: Bytes, off: nat, section: nat, end: Ends)
    requires 12 <= |wire| && section % 2 == 0 && section < 12
    ensures SectionsEnd(wire, off, section, end) ==
            var next := AllEnd(off, U16(wire, section), end);
            if next.None? then None else SectionsEnd(wire, next.value, section + 2, end)
  {
  }

  /** The outer loop. */
  method WireSections(wire: Bytes, start: nat) returns (off: nat, ok: bool)
    requires 12 <= |wire|
    ensures (if ok then Some(off) else None) == SectionsEnd(wire, start, 6, RecordEnds(wire))
  {
    ghost var end := RecordEnds(wire);
    off, ok := start, true;
    var section := 6;
    while section < 12
      invariant section % 2 == 0 && ok && SectionsEnd(wire, off, section, end) == SectionsEnd(wire, start, 6, end)
    {
      SectionsStep(wire, off, section, end);
      off, ok := WireRecords(wire, off, U16(wire, section));
      if !ok { return; }
      section := section + 2;
    }
  }

  method FramedBy(wire: Bytes) returns (ok: bool)
    ensures ok == Framed(wire, RecordEnds(wire))
  {
    if |wire| < 12 || |wire| > 512 || U16(wire, 4) != 1 { return false; }
    var off;
    off, ok := WireName(wire, 12, |wire|);
    if !ok || off + 4 > |wire| { return false; }
    off, ok := WireSections(wire, off + 4);
    return ok && off == |wire|;
  }

  /** doctorDNSFraming accepts exactly the messages of the grammar. */
  method Framing(wire: Bytes) returns (ok: bool)
    ensures ok <==> IsMessage(wire)
  {
    RecordsAreExact(wire);
    FramedExactly(wire, Records(|wire|), PrintRecord, RecordEnds(wire));
    ok := FramedBy(wire);
  }
}
