/**
 * Names and record bodies as cmd/autocar/doctor_dns.go checks them, against a grammar: syntax trees with a
 * printer, after section 4.1 of RFC 1035 and section 2.2 of RFC 9460.
 */
module DnsGrammar {
  import opened Basics

  // ---- names and bodies ----

  /** A name as it is spelled in one place: labels ended by the root or by a compression pointer. */
  datatype Name = Root | Pointer(target: nat) | Cons(text: Bytes, rest: Name)

  datatype Param = Param(key: nat, value: Bytes)

  datatype Body =
    | Opaque(data: Bytes)
    | Named(before: Bytes, name: Name)
    | Authority(server: Name, mailbox: Name, timers: Bytes)
    | Texts(texts: seq<Bytes>)
    | Service(priority: Bytes, alias: Name, params: seq<Param>)


  function Put16(v: nat): Bytes { [v / 256 % 256, v % 256] }

  /** Labels have 1 to 63 bytes; a pointer stays inside a message of `size` bytes. */
  predicate WellName(n: Name, size: nat) {
    match n
    case Root => true
    case Pointer(target) => target < 0x4000 && target < size
    case Cons(text, rest) => 1 <= |text| < 64 && WellName(rest, size)
  }

  function PrintName(n: Name): (b: Bytes)
    ensures |b| > 0
  {
    match n
    case Root => [0]
    case Pointer(target) => Put16(0xc000 + target)
    case Cons(text, rest) => [|text| % 256] + text + PrintName(rest)
  }

  function PrintTexts(ts: seq<Bytes>): Bytes {
    if ts == [] then [] else [|ts[0]| % 256] + ts[0] + PrintTexts(ts[1..])
  }

  predicate WellTexts(ts: seq<Bytes>) { forall i :: 0 <= i < |ts| ==> |ts[i]| < 256 }

  /** Parameters come in strictly increasing order of their keys. */
  predicate WellParams(ps: seq<Param>) {
    && (forall i :: 0 <= i < |ps| ==> ps[i].key < 0x1_0000 && |ps[i].value| < 0x1_0000)
    && (forall i, j :: 0 <= i < j < |ps| ==> ps[i].key < ps[j].key)
  }

  function PrintParams(ps: seq<Param>): Bytes {
    if ps == [] then []
    else Put16(ps[0].key) + Put16(|ps[0].value|) + ps[0].value + PrintParams(ps[1..])
  }

  const A := 1
  const NS := 2
  const CNAME := 5
  const SOA := 6
  const PTR := 12
  const MX := 15
  const TXT := 16
  const AAAA := 28
  const SRV := 33
  const OPT := 41
  const SVCB := 64
  const HTTPS := 65

  predicate IsKnown(typ: nat) {
    typ == A || typ == NS || typ == CNAME || typ == SOA || typ == PTR || typ == MX || typ == TXT ||
    typ == AAAA || typ == SRV || typ == OPT || typ == SVCB || typ == HTTPS
  }

  /** Which bodies a record type may carry. EDNS records have none. */
  predicate WellBody(typ: nat, b: Body, size: nat) {
    match b
    case Opaque(data) => (typ == A && |data| == 4) || (typ == AAAA && |data| == 16) || !IsKnown(typ)
    case Named(before, name) =>
      WellName(name, size) &&
      (((typ == NS || typ == CNAME || typ == PTR) && |before| == 0)
       || (typ == MX && |before| == 2) || (typ == SRV && |before| == 6))
    case Authority(server, mailbox, timers) =>
      typ == SOA && WellName(server, size) && WellName(mailbox, size) && |timers| == 20
    case Texts(texts) => typ == TXT && WellTexts(texts)
    case Service(priority, alias, params) =>
      (typ == SVCB || typ == HTTPS) && |priority| == 2 && WellName(alias, size) && WellParams(params)
  }

  function PrintBody(b: Body): Bytes {
    match b
    case Opaque(data) => data
    case Named(before, name) => before + PrintName(name)
    case Authority(server, mailbox, timers) => PrintName(server) + (PrintName(mailbox) + timers)
    case Texts(texts) => PrintTexts(texts)
    case Service(priority, alias, params) => priority + (PrintName(alias) + PrintParams(params))
  }

  /** `data` is the spelling of some body of this type. */
  ghost predicate IsBody(typ: nat, data: Bytes, size: nat) {
    exists b :: WellBody(typ, b, size) && PrintBody(b) == data
  }

  // ---- spelling in place ----

  /** `b` is what `wire` holds from `i` on. */
  predicate Here(wire: Bytes, i: nat, b: Bytes) { i + |b| <= |wire| && Agrees(wire, i, b, |b|) }

  /** The first `n` bytes of `b` stand at `i`. */
  predicate Agrees(wire: Bytes, i: nat, b: Bytes, n: nat)
    requires n <= |b| && i + n <= |wire|
  {
    n == 0 || (wire[i + n - 1] == b[n - 1] && Agrees(wire, i, b, n - 1))
  }

  lemma {:induction false} AgreesBytes(wire: Bytes, i: nat, b: Bytes, n: nat)
    requires n <= |b| && i + n <= |wire|
    ensures Agrees(wire, i, b, n) <==> wire[i..i + n] == b[..n]
  {
    if n == 0 {
    } else {
      AgreesBytes(wire, i, b, n - 1);
      assert wire[i..i + n] == wire[i..i + n - 1] + [wire[i + n - 1]];
      assert b[..n] == b[..n - 1] + [b[n - 1]];
    }
  }

  lemma HereIsSlice(wire: Bytes, i: nat, b: Bytes)
    ensures Here(wire, i, b) <==> i + |b| <= |wire| && wire[i..i + |b|] == b
  {
    if i + |b| <= |wire| {
      AgreesBytes(wire, i, b, |b|);
      assert b[..|b|] == b;
    }
  }

  lemma HereSlice(wire: Bytes, i: nat, n: nat)
    requires i + n <= |wire|
    ensures Here(wire, i, wire[i..i + n])
  {
    HereIsSlice(wire, i, wire[i..i + n]);
  }

  lemma HereConcat(wire: Bytes, i: nat, a: Bytes, b: Bytes)
    ensures Here(wire, i, a + b) <==> Here(wire, i, a) && Here(wire, i + |a|, b)
  {
    HereIsSlice(wire, i, a + b);
    HereIsSlice(wire, i, a);
    HereIsSlice(wire, i + |a|, b);
    if i + |a| + |b| <= |wire| { SliceConcat(wire[i..i + |a|], wire[i + |a|..i + |a| + |b|], a, b); }
    assert i + |a| + |b| <= |wire| ==> wire[i..i + |a + b|] == wire[i..i + |a|] + wire[i + |a|..i + |a| + |b|];
  }

  lemma HereThree(wire: Bytes, i: nat, a: Bytes, b: Bytes, c: Bytes)
    requires Here(wire, i, a) && Here(wire, i + |a|, b) && Here(wire, i + |a| + |b|, c)
    ensures Here(wire, i, a + (b + c)) && |a + (b + c)| == |a| + |b| + |c|
  {
    HereConcat(wire, i + |a|, b, c);
    HereConcat(wire, i, a, b + c);
  }

  lemma SliceConcat(x: Bytes, y: Bytes, a: Bytes, b: Bytes)
    requires |x| == |a|
    ensures x + y == a + b <==> x == a && y == b
  {
    if x + y == a + b {
      assert x == (x + y)[..|x|] && a == (a + b)[..|a|];
      assert y == (x + y)[|x|..] && b == (a + b)[|a|..];
    }
  }

  lemma Whole(wire: Bytes, b: Bytes)
    ensures b == wire <==> Here(wire, 0, b) && |b| == |wire|
  {
    HereIsSlice(wire, 0, b);
    assert wire[0..|wire|] == wire;
  }

  function U16(wire: Bytes, i: nat): (v: nat)
    requires i + 2 <= |wire|
    ensures v < 0x1_0000
  {
    var high: nat := wire[i];
    high * 256 + wire[i + 1]
  }

  lemma Here16(wire: Bytes, i: nat, v: nat)
    requires v < 0x1_0000
    ensures Here(wire, i, Put16(v)) <==> i + 2 <= |wire| && U16(wire, i) == v
  {
    HereIsSlice(wire, i, Put16(v));
    if i + 2 <= |wire| { assert wire[i..i + 2] == [wire[i], wire[i + 1]]; }
  }

  lemma HereByte(wire: Bytes, i: nat, v: nat)
    requires v < 256
    ensures Here(wire, i, [v % 256]) <==> i < |wire| && wire[i] == v
  {
    HereIsSlice(wire, i, [v % 256]);
    if i < |wire| { assert wire[i..i + 1] == [wire[i]]; }
  }

  // ---- the checker as functions ----

  /** doctorDNSWireName: where the name at `off` ends. */
  function NameEnd(wire: Bytes, off: nat, end: nat): (r: Option<nat>)
    requires end <= |wire|
    ensures r.Some? ==> off < r.value <= end
    decreases |wire| + 64 - off
  {
    if off >= end then None
    else
      var n: nat := wire[off];
      if n == 0 then Some(off + 1)
      else if n < 64 then if off + 1 + n > end then None else NameEnd(wire, off + 1 + n, end)
      else if n < 192 || off + 1 >= end || (n - 192) * 256 + wire[off + 1] >= |wire| then None
      else Some(off + 2)
  }

  predicate TextsFill(wire: Bytes, off: nat, end: nat)
    requires off <= end <= |wire|
    decreases end - off
  {
    off == end || (off + 1 + wire[off] <= end && TextsFill(wire, off + 1 + wire[off], end))
  }

  predicate ParamsFill(wire: Bytes, off: nat, end: nat, previous: int)
    requires off <= end <= |wire|
    decreases end - off
  {
    off == end ||
    (off + 4 <= end && U16(wire, off) > previous && off + 4 + U16(wire, off + 2) <= end &&
     ParamsFill(wire, off + 4 + U16(wire, off + 2), end, U16(wire, off)))
  }

  predicate ServiceFills(wire: Bytes, off: nat, end: nat)
    requires off <= end <= |wire|
  {
    var target := NameEnd(wire, off + 2, end);
    target.Some? && ParamsFill(wire, target.value, end, -1)
  }

  predicate AuthorityFills(wire: Bytes, off: nat, end: nat)
    requires off <= end <= |wire|
  {
    var server := NameEnd(wire, off, end);
    server.Some? &&
    var mailbox := NameEnd(wire, server.value, end);
    mailbox.Some? && mailbox.value + 20 == end
  }

  /** doctorDNSWireBody. */
  predicate BodyFills(wire: Bytes, typ: nat, off: nat, end: nat)
    requires off <= end <= |wire|
  {
    if typ == OPT then false
    else if typ == A then end - off == 4
    else if typ == AAAA then end - off == 16
    else if typ == NS || typ == CNAME || typ == PTR then NameEnd(wire, off, end) == Some(end)
    else if typ == MX then NameEnd(wire, off + 2, end) == Some(end)
    else if typ == SOA then AuthorityFills(wire, off, end)
    else if typ == SRV then NameEnd(wire, off + 6, end) == Some(end)
    else if typ == TXT then TextsFill(wire, off, end)
    else if typ == SVCB || typ == HTTPS then ServiceFills(wire, off, end)
    else true
  }

  // ---- names ----

  lemma {:induction false} NameParsed(wire: Bytes, off: nat, end: nat) returns (n: Name)
    requires end <= |wire| && NameEnd(wire, off, end).Some?
    ensures WellName(n, |wire|) && Here(wire, off, PrintName(n))
    ensures NameEnd(wire, off, end) == Some(off + |PrintName(n)|)
    decreases |wire| + 64 - off
  {
    var k: nat := wire[off];
    if k == 0 {
      n := Root;
    } else if k < 64 {
      var rest := NameParsed(wire, off + 1 + k, end);
      n := Cons(wire[off + 1..off + 1 + k], rest);
      HereSlice(wire, off + 1, k);
      LengthPrefixed(wire, off, n.text, PrintName(rest));
    } else {
      n := Pointer(U16(wire, off) - 0xc000);
      Here16(wire, off, U16(wire, off));
    }
  }

  /** A byte that counts, what it counts, and the rest. */
  lemma LengthPrefixed(wire: Bytes, off: nat, text: Bytes, rest: Bytes)
    requires |text| < 256
    ensures Here(wire, off, [|text| % 256] + text + rest) <==>
            off < |wire| && wire[off] == |text| && Here(wire, off + 1, text) && Here(wire, off + 1 + |text|, rest)
  {
    HereByte(wire, off, |text|);
    HereConcat(wire, off, [|text| % 256], text);
    HereConcat(wire, off, [|text| % 256] + text, rest);
  }

  lemma {:induction false} NamePrinted(wire: Bytes, off: nat, end: nat, n: Name)
    requires end <= |wire| && WellName(n, |wire|) && Here(wire, off, PrintName(n)) && off + |PrintName(n)| <= end
    ensures NameEnd(wire, off, end) == Some(off + |PrintName(n)|)
    decreases n
  {
    match n
    case Root => assert PrintName(n)[0] == 0;
    case Pointer(target) =>
      Here16(wire, off, 0xc000 + target);
    case Cons(text, rest) =>
      LengthPrefixed(wire, off, text, PrintName(rest));
      NamePrinted(wire, off + 1 + |text|, end, rest);
  }

  // ---- bodies ----

  lemma {:induction false} TextsParsed(wire: Bytes, off: nat, end: nat) returns (ts: seq<Bytes>)
    requires off <= end <= |wire| && TextsFill(wire, off, end)
    ensures WellTexts(ts) && Here(wire, off, PrintTexts(ts)) && off + |PrintTexts(ts)| == end
    decreases end - off
  {
    if off == end {
      ts := [];
    } else {
      var k := wire[off];
      var rest := TextsParsed(wire, off + 1 + k, end);
      var text := wire[off + 1..off + 1 + k];
      ts := [text] + rest;
      assert ts[1..] == rest;
      HereSlice(wire, off + 1, k);
      LengthPrefixed(wire, off, text, PrintTexts(rest));
    }
  }

  lemma {:induction false} TextsPrinted(wire: Bytes, off: nat, end: nat, ts: seq<Bytes>)
    requires off <= end <= |wire| && WellTexts(ts) && Here(wire, off, PrintTexts(ts)) && off + |PrintTexts(ts)| == end
    ensures TextsFill(wire, off, end)
    decreases |ts|
  {
    if ts == [] {
    } else {
      LengthPrefixed(wire, off, ts[0], PrintTexts(ts[1..]));
      TextsPrinted(wire, off + 1 + |ts[0]|, end, ts[1..]);
    }
  }

  predicate Above(ps: seq<Param>, previous: int) { ps == [] || previous < ps[0].key }

  lemma {:induction false} ParamsParsed(wire: Bytes, off: nat, end: nat, previous: int) returns (ps: seq<Param>)
    requires off <= end <= |wire| && ParamsFill(wire, off, end, previous)
    ensures WellParams(ps) && Above(ps, previous) && Here(wire, off, PrintParams(ps)) && off + |PrintParams(ps)| == end
    decreases end - off
  {
    if off == end {
      ps := [];
    } else {
      var key, k := U16(wire, off), U16(wire, off + 2);
      var rest := ParamsParsed(wire, off + 4 + k, end, key);
      var value := wire[off + 4..off + 4 + k];
      ps := [Param(key, value)] + rest;
      assert ps[1..] == rest;
      HereSlice(wire, off + 4, k);
      ParamHere(wire, off, Param(key, value));
      HereConcat(wire, off, Put16(key) + Put16(k) + value, PrintParams(rest));
    }
  }

  lemma ParamHere(wire: Bytes, off: nat, p: Param)
    requires p.key < 0x1_0000 && |p.value| < 0x1_0000
    ensures Here(wire, off, Put16(p.key) + Put16(|p.value|) + p.value) <==>
            off + 4 <= |wire| && U16(wire, off) == p.key && U16(wire, off + 2) == |p.value|
            && Here(wire, off + 4, p.value)
  {
    HereConcat(wire, off, Put16(p.key) + Put16(|p.value|), p.value);
    HereConcat(wire, off, Put16(p.key), Put16(|p.value|));
    Here16(wire, off, p.key);
    Here16(wire, off + 2, |p.value|);
  }

  lemma {:induction false} ParamsPrinted(wire: Bytes, off: nat, end: nat, previous: int, ps: seq<Param>)
    requires off <= end <= |wire| && WellParams(ps) && Above(ps, previous)
    requires Here(wire, off, PrintParams(ps)) && off + |PrintParams(ps)| == end
    ensures ParamsFill(wire, off, end, previous)
    decreases |ps|
  {
    if ps == [] {
    } else {
      var p := ps[0];
      HereConcat(wire, off, Put16(p.key) + Put16(|p.value|) + p.value, PrintParams(ps[1..]));
      ParamHere(wire, off, p);
      ParamsPrinted(wire, off + 4 + |p.value|, end, p.key, ps[1..]);
    }
  }

  lemma NamedParsed(wire: Bytes, off: nat, end: nat, skip: nat) returns (b: Body)
    requires off <= end <= |wire| && NameEnd(wire, off + skip, end) == Some(end)
    ensures b.Named? && |b.before| == skip && WellName(b.name, |wire|)
    ensures Here(wire, off, b.before + PrintName(b.name)) && off + skip + |PrintName(b.name)| == end
  {
    var name := NameParsed(wire, off + skip, end);
    var before := wire[off..off + skip];
    HereSlice(wire, off, skip);
    HereConcat(wire, off, before, PrintName(name));
    b := Named(before, name);
  }

  lemma ServiceParsed(wire: Bytes, typ: nat, off: nat, end: nat) returns (b: Body)
    requires off <= end <= |wire| && (typ == SVCB || typ == HTTPS) && ServiceFills(wire, off, end)
    ensures WellBody(typ, b, |wire|) && Here(wire, off, PrintBody(b)) && off + |PrintBody(b)| == end
  {
    var alias := NameParsed(wire, off + 2, end);
    var priority := wire[off..off + 2];
    HereSlice(wire, off, 2);
    var params := ParamsParsed(wire, off + 2 + |PrintName(alias)|, end, -1);
    HereThree(wire, off, priority, PrintName(alias), PrintParams(params));
    b := Service(priority, alias, params);
  }

  lemma AuthorityParsed(wire: Bytes, off: nat, end: nat) returns (b: Body)
    requires off <= end <= |wire| && AuthorityFills(wire, off, end)
    ensures WellBody(SOA, b, |wire|) && Here(wire, off, PrintBody(b)) && off + |PrintBody(b)| == end
  {
    var server := NameParsed(wire, off, end);
    var mailbox := NameParsed(wire, off + |PrintName(server)|, end);
    var timers := wire[end - 20..end];
    HereSlice(wire, end - 20, 20);
    HereThree(wire, off, PrintName(server), PrintName(mailbox), timers);
    b := Authority(server, mailbox, timers);
  }

  lemma BodyParsed(wire: Bytes, typ: nat, off: nat, end: nat) returns (b: Body)
    requires off <= end <= |wire| && BodyFills(wire, typ, off, end)
    ensures WellBody(typ, b, |wire|) && Here(wire, off, PrintBody(b)) && off + |PrintBody(b)| == end
  {
    if typ == NS || typ == CNAME || typ == PTR {
      b := NamedParsed(wire, off, end, 0);
    } else if typ == MX {
      b := NamedParsed(wire, off, end, 2);
    } else if typ == SRV {
      b := NamedParsed(wire, off, end, 6);
    } else if typ == SOA {
      b := AuthorityParsed(wire, off, end);
    } else if typ == TXT {
      var ts := TextsParsed(wire, off, end);
      b := Texts(ts);
    } else if typ == SVCB || typ == HTTPS {
      b := ServiceParsed(wire, typ, off, end);
    } else {
      b := Opaque(wire[off..end]);
      HereSlice(wire, off, end - off);
    }
  }

  lemma AuthorityPrinted(wire: Bytes, off: nat, end: nat, server: Name, mailbox: Name, timers: Bytes)
    requires off <= end <= |wire| && WellName(server, |wire|) && WellName(mailbox, |wire|) && |timers| == 20
    requires Here(wire, off, PrintName(server) + (PrintName(mailbox) + timers))
    requires off + |PrintName(server)| + |PrintName(mailbox)| + 20 == end
    ensures AuthorityFills(wire, off, end)
  {
    HereConcat(wire, off, PrintName(server), PrintName(mailbox) + timers);
    HereConcat(wire, off + |PrintName(server)|, PrintName(mailbox), timers);
    NamePrinted(wire, off, end, server);
    NamePrinted(wire, off + |PrintName(server)|, end, mailbox);
  }

  lemma ServicePrinted(wire: Bytes, off: nat, end: nat, priority: Bytes, alias: Name, params: seq<Param>)
    requires off <= end <= |wire| && |priority| == 2 && WellName(alias, |wire|) && WellParams(params)
    requires Here(wire, off, priority + (PrintName(alias) + PrintParams(params)))
    requires off + 2 + |PrintName(alias)| + |PrintParams(params)| == end
    ensures ServiceFills(wire, off, end)
  {
    HereConcat(wire, off, priority, PrintName(alias) + PrintParams(params));
    HereConcat(wire, off + 2, PrintName(alias), PrintParams(params));
    NamePrinted(wire, off + 2, end, alias);
    ParamsPrinted(wire, off + 2 + |PrintName(alias)|, end, -1, params);
  }

  lemma NamedPrinted(wire: Bytes, off: nat, end: nat, before: Bytes, name: Name)
    requires off <= end <= |wire| && WellName(name, |wire|)
    requires Here(wire, off, before + PrintName(name)) && off + |before| + |PrintName(name)| == end
    ensures NameEnd(wire, off + |before|, end) == Some(end)
  {
    HereConcat(wire, off, before, PrintName(name));
    NamePrinted(wire, off + |before|, end, name);
  }

  lemma BodyPrinted(wire: Bytes, typ: nat, off: nat, end: nat, b: Body)
    requires off <= end <= |wire| && WellBody(typ, b, |wire|)
    requires Here(wire, off, PrintBody(b)) && off + |PrintBody(b)| == end
    ensures BodyFills(wire, typ, off, end)
  {
    match b
    case Opaque(_) =>
    case Named(before, name) => NamedPrinted(wire, off, end, before, name);
    case Authority(server, mailbox, timers) => AuthorityPrinted(wire, off, end, server, mailbox, timers);
    case Texts(texts) => TextsPrinted(wire, off, end, texts);
    case Service(priority, alias, params) => ServicePrinted(wire, off, end, priority, alias, params);
  }

  lemma FilledIsBody(wire: Bytes, typ: nat, off: nat, end: nat)
    requires off <= end <= |wire| && BodyFills(wire, typ, off, end)
    ensures IsBody(typ, wire[off..end], |wire|)
  {
    var b := BodyParsed(wire, typ, off, end);
    HereIsSlice(wire, off, PrintBody(b));
  }

  lemma BodyIsFilled(wire: Bytes, typ: nat, off: nat, end: nat)
    requires off <= end <= |wire| && IsBody(typ, wire[off..end], |wire|)
    ensures BodyFills(wire, typ, off, end)
  {
    var b :| WellBody(typ, b, |wire|) && PrintBody(b) == wire[off..end];
    HereSlice(wire, off, end - off);
    BodyPrinted(wire, typ, off, end, b);
  }

  /** The body checker accepts exactly the spellings of bodies. */
  lemma BodyExactly(wire: Bytes, typ: nat, off: nat, end: nat)
    requires off <= end <= |wire|
    ensures BodyFills(wire, typ, off, end) <==> IsBody(typ, wire[off..end], |wire|)
  {
    if BodyFills(wire, typ, off, end) {
      FilledIsBody(wire, typ, off, end);
    } else if IsBody(typ, wire[off..end], |wire|) {
      BodyIsFilled(wire, typ, off, end);
    }
  }

  // ---- the checker as loops ----

  method WireName(wire: Bytes, start: nat, end: nat) returns (off: nat, ok: bool)
    requires end <= |wire|
    ensures (if ok then Some(off) else None) == NameEnd(wire, start, end)
  {
    off := start;
    while off < end
      invariant NameEnd(wire, off, end) == NameEnd(wire, start, end)
    {
      var n: nat := wire[off];
      off := off + 1;
      if n < 64 {
        if n == 0 { return off, true; }
        if off + n > end { return off, false; }
        off := off + n;
      } else if n >= 192 {
        if off >= end { return off, false; }
        var pointer := (n - 192) * 256 + wire[off];
        return off + 1, pointer < |wire|;
      } else {
        return off, false;
      }
    }
    return off, false;
  }

  method WireTexts(wire: Bytes, start: nat, end: nat) returns (ok: bool)
    requires start <= end <= |wire|
    ensures ok == TextsFill(wire, start, end)
  {
    var off := start;
    while off < end
      invariant off <= end && TextsFill(wire, off, end) == TextsFill(wire, start, end)
    {
      var n := wire[off];
      off := off + 1;
      off := off + n;
      if off > end { return false; }
    }
    return off == end;
  }

  method WireParams(wire: Bytes, start: nat, end: nat) returns (ok: bool)
    requires start <= end <= |wire|
    ensures ok == ParamsFill(wire, start, end, -1)
  {
    var off := start;
    var previous: int := -1;
    while off < end
      invariant off <= end && ParamsFill(wire, off, end, previous) == ParamsFill(wire, start, end, -1)
    {
      if off + 4 > end { return false; }
      var key, length := U16(wire, off), U16(wire, off + 2);
      if key <= previous { return false; }
      previous := key;
      off := off + 4 + length;
      if off > end { return false; }
    }
    return off == end;
  }

  method WireBody(wire: Bytes, typ: nat, start: nat, end: nat) returns (ok: bool)
    requires start <= end <= |wire|
    ensures ok <==> IsBody(typ, wire[start..end], |wire|)
  {
    BodyExactly(wire, typ, start, end);
    var off := start;
    if typ == OPT { return false; }
    if typ == A { return end - off == 4; }
    if typ == AAAA { return end - off == 16; }
    if typ == NS || typ == CNAME || typ == PTR {
      off, ok := WireName(wire, off, end);
      return ok && off == end;
    }
    if typ == MX {
      off, ok := WireName(wire, off + 2, end);
      return ok && off == end;
    }
    if typ == SOA {
      off, ok := WireName(wire, off, end);
      if !ok { return false; }
      off, ok := WireName(wire, off, end);
      return ok && off + 20 == end;
    }
    if typ == SRV {
      off, ok := WireName(wire, off + 6, end);
      return ok && off == end;
    }
    if typ == TXT {
      ok := WireTexts(wire, off, end);
      return;
    }
    if typ == SVCB || typ == HTTPS {
      off, ok := WireName(wire, off + 2, end);
      if !ok { return false; }
      ok := WireParams(wire, off, end);
      return;
    }
    return true;
  }
}
