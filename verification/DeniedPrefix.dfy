/**
 * Address policy helpers of internal/security/dialer.go: denied prefixes across native and
 * IPv4-mapped spellings, and the interleaving of address families.
 *
 * An address is the natural number its bits spell; `Contains` and `Masked` follow net/netip.
 */
module DeniedPrefix {
  import opened Basics

  datatype Addr = V4(bits: nat) | V6(bits: nat)

  /** `zoned` says that the address carries an IPv6 zone. */
  datatype Prefix = Prefix(addr: Addr, length: int, zoned: bool)

  function Pow2(n: nat): (p: nat)
    ensures p > 0
  {
    if n == 0 then 1 else 2 * Pow2(n - 1)
  }

  function Width(a: Addr): nat { if a.V4? then 32 else 128 }

  predicate ValidAddr(a: Addr) { a.bits < Pow2(Width(a)) }

  predicate ValidPrefix(p: Prefix) { ValidAddr(p.addr) && 0 <= p.length <= Width(p.addr) }

  /** The size of the block of addresses a prefix covers. */
  function Block(p: Prefix): nat
    requires ValidPrefix(p)
  {
    Pow2(Width(p.addr) - p.length)
  }

  /** The largest multiple of `k` up to `x`. */
  function Floor(x: nat, k: nat): (r: nat)
    requires k > 0
    ensures r <= x
  {
    x - x % k
  }

  function Masked(p: Prefix): (m: Prefix)
    requires ValidPrefix(p)
    ensures ValidPrefix(m) && m.addr.V4? == p.addr.V4? && m.length == p.length && !m.zoned
  {
    var bits := Floor(p.addr.bits, Block(p));
    Prefix(if p.addr.V4? then V4(bits) else V6(bits), p.length, false)
  }

  /** An IPv4 address never matches an IPv6 prefix, nor the other way round. */
  predicate Contains(p: Prefix, a: Addr)
    requires ValidPrefix(p)
  {
    !p.zoned && p.addr.V4? == a.V4? && a.bits / Block(p) == p.addr.bits / Block(p)
  }

  const MAPPED: nat := 0xffff * 0x1_0000_0000

  predicate Is4In6(a: Addr) { a.V6? && a.bits / 0x1_0000_0000 == 0xffff }

  function Unmap(a: Addr): Addr { if Is4In6(a) then V4(a.bits - MAPPED) else a }

  function Mapped(a: Addr): Addr { if a.V4? then V6(MAPPED + a.bits) else a }

  /** NormalizeDeniedPrefix; None is its error. */
  function Normalize(p: Prefix): Option<Prefix> {
    if !ValidPrefix(p) || p.zoned then None
    else
      var m := Masked(p);
      if Is4In6(m.addr) then
        MappedIsLong(p);
        UnmapIsValid(m.addr);
        Some(Masked(Prefix(Unmap(m.addr), m.length - 96, false)))
      else if m.length < 96 && Contains(m, V6(MAPPED)) then None
      else Some(m)
  }

  // ---- powers of two ----

  lemma {:induction false} Pow2Add(m: nat, n: nat)
    ensures Pow2(m + n) == Pow2(m) * Pow2(n)
  {
    if m == 0 {
    } else {
      Pow2Add(m - 1, n);
    }
  }

  lemma {:induction false} Pow2Doubles(m: nat, n: nat)
    requires m <= n
    ensures Pow2(m) <= Pow2(n)
  {
    if m == n {
    } else {
      Pow2Doubles(m, n - 1);
    }
  }

  lemma Pow2Of32()
    ensures Pow2(32) == 0x1_0000_0000
  {
    assert Pow2(8) == 256;
    Pow2Add(8, 8);
    Pow2Add(16, 16);
  }

  lemma DivideShifted(q: nat, v: nat, k: nat)
    requires k > 0
    ensures (q * k + v) / k == q + v / k
  {
    var t := v / k;
    assert v == t * k + v % k;
    assert q * k + v == (q + t) * k + v % k by { Distribute(q, t, k); }
    DivideUnique(q * k + v, q + t, v % k, k);
  }

  lemma Distribute(q: nat, t: nat, k: nat)
    ensures (q + t) * k == q * k + t * k
  {
  }

  lemma DivideUnique(x: nat, q: nat, r: nat, k: nat)
    requires k > 0 && r < k && x == q * k + r
    ensures x / k == q && x % k == r
  {
    var q', r' := x / k, x % k;
    assert x == q' * k + r' && r' < k;
    if q' < q {
      MulAtLeast(q' + 1, q, k);
      Distribute(q', 1, k);
    } else if q < q' {
      MulAtLeast(q + 1, q', k);
      Distribute(q, 1, k);
    }
  }

  lemma MulAtLeast(a: nat, b: nat, k: nat)
    requires a <= b
    ensures a * k <= b * k
  {
  }

  // ---- masking ----

  lemma FloorBits(x: nat, k: nat)
    requires k > 0
    ensures Floor(x, k) == (x / k) * k && Floor(x, k) / k == x / k
  {
    var q := x / k;
    assert x == q * k + x % k;
    DivideUnique(q * k, q, 0, k);
  }

  lemma MaskedBits(p: Prefix)
    requires ValidPrefix(p)
    ensures Masked(p).addr.bits == (p.addr.bits / Block(p)) * Block(p)
         && Masked(p).addr.bits / Block(p) == p.addr.bits / Block(p) && Block(Masked(p)) == Block(p)
  {
    FloorBits(p.addr.bits, Block(p));
  }

  /** Masking does not change what a prefix contains. */
  lemma MaskedContains(p: Prefix, a: Addr)
    requires ValidPrefix(p) && !p.zoned
    ensures Contains(Masked(p), a) <==> Contains(p, a)
  {
    MaskedBits(p);
  }

  lemma QuotientIsBlock(x: nat, q: nat, k: nat)
    requires k > 0
    ensures x / k == q <==> q * k <= x < q * k + k
  {
    if x / k == q {
      assert x == q * k + x % k;
    } else if q * k <= x < q * k + k {
      DivideUnique(x, q, x - q * k, k);
    }
  }

  /** A prefix holds the addresses of its family that share its first bits: one block from its masked address on. */
  lemma ContainsIsBlock(p: Prefix, a: Addr)
    requires ValidPrefix(p)
    ensures var first, size := Masked(p).addr.bits, Pow2(Width(p.addr) - p.length);
            Contains(p, a) <==> !p.zoned && p.addr.V4? == a.V4? && first <= a.bits < first + size
  {
    MaskedBits(p);
    QuotientIsBlock(a.bits, p.addr.bits / Block(p), Block(p));
  }

  /** A masked IPv4-mapped prefix is at least /96, so the subtraction of 96 is never negative. */
  lemma MappedIsLong(p: Prefix)
    requires ValidPrefix(p) && Is4In6(Masked(p).addr)
    ensures p.length >= 96
  {
    if p.length < 96 {
      MaskedBits(p);
      var j := 128 - p.length - 33;
      Pow2Add(33, j);
      Pow2Of32();
      var q := p.addr.bits / Block(p);
      var n := Masked(p).addr.bits;
      assert Pow2(33) == 2 * Pow2(32);
      EvenMultiple(n, q, Pow2(j));
    }
  }

  /** A multiple of 2^33 has an even quotient by 2^32, unlike an IPv4-mapped address. */
  lemma EvenMultiple(n: nat, q: nat, t: nat)
    requires n == q * (2 * 0x1_0000_0000 * t)
    ensures n / 0x1_0000_0000 != 0xffff
  {
    var u := q * t;
    assert n == (2 * u) * 0x1_0000_0000 by { Reorder(q, t); }
    assert n / 0x1_0000_0000 == 2 * u;
  }

  lemma Reorder(q: nat, t: nat)
    ensures q * (2 * 0x1_0000_0000 * t) == (2 * (q * t)) * 0x1_0000_0000
  {
  }

  lemma UnmapIsValid(a: Addr)
    requires ValidAddr(a)
    ensures ValidAddr(Unmap(a))
  {
    Pow2Of32();
  }

  // ---- normalisation keeps the meaning ----

  /** What a denied prefix says of an unmapped destination: the prefix holds the address in its native or
      in its IPv4-mapped spelling. */
  predicate Denies(p: Prefix, a: Addr)
    requires ValidPrefix(p)
  {
    Contains(p, a) || (a.V4? && Contains(p, Mapped(a)))
  }

  /** `q`, asked about unmapped destinations as the dialer asks, answers what `p` says. */
  ghost predicate Represents(q: Prefix, p: Prefix)
    requires ValidPrefix(p)
  {
    ValidPrefix(q) && !q.zoned && forall x :: ValidAddr(x) ==> (Contains(q, Unmap(x)) <==> Denies(p, Unmap(x)))
  }

  lemma DivideTwice(x: nat, k: nat, t: nat)
    requires k > 0 && t > 0 && k * t > 0
    ensures x / (k * t) == (x / k) / t
  {
    var q := x / k;
    FromDigits(x, k, t, k * t, q, x % k, q / t, q % t);
  }

  lemma FromDigits(x: nat, k: nat, t: nat, kt: nat, q: nat, r: nat, u: nat, v: nat)
    requires kt == k * t && x == q * k + r && q == u * t + v && r < k && v < t && kt > 0
    ensures x / kt == u
  {
    Digits(u, v, r, k, t);
    DivideUnique(x, u, v * k + r, kt);
  }

  /** A two-digit numeral in bases `t` and `k`. */
  lemma Digits(u: nat, v: nat, r: nat, k: nat, t: nat)
    requires v < t && r < k
    ensures (u * t + v) * k + r == u * (k * t) + (v * k + r) && v * k + r < k * t
  {
    Distribute(u * t, v, k);
    Swap(u, t, k);
    MulAtLeast(v + 1, t, k);
    Distribute(v, 1, k);
  }

  lemma Swap(u: nat, t: nat, k: nat)
    ensures (u * t) * k == u * (k * t)
  {
  }

  /** A short IPv6 prefix covers whole blocks of 2^32 addresses, and an even number of them. */
  lemma ShortBlock(p: Prefix) returns (t: nat)
    requires ValidPrefix(p) && p.addr.V6? && p.length < 96
    ensures t > 0 && t % 2 == 0 && Block(p) == 0x1_0000_0000 * t
  {
    t := Pow2(96 - p.length);
    Pow2Of32();
    Pow2Add(32, 96 - p.length);
    assert t == 2 * Pow2(95 - p.length);
  }

  /** The blocks of a long IPv6 prefix divide a block of 2^32 addresses. */
  lemma LongBlock(p: Prefix) returns (t: nat)
    requires ValidPrefix(p) && p.addr.V6? && p.length >= 96
    ensures t > 0 && Block(p) * t == 0x1_0000_0000
  {
    t := Pow2(p.length - 96);
    Pow2Of32();
    Pow2Add(128 - p.length, p.length - 96);
  }

  /** Addresses that differ above the lower 32 bits are in different small blocks. */
  lemma UpperBitsDiffer(x: nat, y: nat, k: nat, t: nat)
    requires k > 0 && t > 0 && k * t == 0x1_0000_0000 && x / 0x1_0000_0000 != y / 0x1_0000_0000
    ensures x / k != y / k
  {
    DivideTwice(x, k, t);
    DivideTwice(y, k, t);
  }

  /** Addresses whose upper bits fall together are in the same large block. */
  lemma UpperBitsAgree(x: nat, y: nat, k: nat, t: nat)
    requires t > 0 && k == 0x1_0000_0000 * t && (x / 0x1_0000_0000) / t == (y / 0x1_0000_0000) / t
    ensures k > 0 && x / k == y / k
  {
    DivideTwice(x, 0x1_0000_0000, t);
    DivideTwice(y, 0x1_0000_0000, t);
  }

  lemma MappedQuotient(v: nat)
    requires v < 0x1_0000_0000
    ensures (MAPPED + v) / 0x1_0000_0000 == 0xffff
  {
  }

  /** Stripping the mapped upper bits from both sides keeps the comparison of blocks. */
  lemma StripMapped(x: nat, y: nat, k: nat, t: nat)
    requires k > 0 && k * t == 0x1_0000_0000
    ensures (MAPPED + x) / k == (MAPPED + y) / k <==> x / k == y / k
  {
    assert MAPPED == (0xffff * t) * k by { Swap(0xffff, t, k); }
    DivideShifted(0xffff * t, x, k);
    DivideShifted(0xffff * t, y, k);
  }

  /** A prefix that normalises to its IPv4 form keeps exactly its mapped addresses. */
  lemma MappedCase(p: Prefix, a: Addr)
    requires ValidPrefix(p) && !p.zoned && Is4In6(Masked(p).addr) && ValidAddr(a) && !Is4In6(a)
    ensures Normalize(p).Some? && ValidPrefix(Normalize(p).value)
    ensures Contains(Normalize(p).value, a) <==> Denies(p, a)
  {
    MappedIsLong(p);
    var m := Masked(p);
    UnmapIsValid(m.addr);
    var n := Prefix(Unmap(m.addr), m.length - 96, false);
    MaskedContains(n, a);
    MappedHolds(p, m, n, a);
  }

  lemma MappedHolds(p: Prefix, m: Prefix, n: Prefix, a: Addr)
    requires ValidPrefix(p) && !p.zoned && m == Masked(p) && Is4In6(m.addr) && p.length >= 96 && !Is4In6(a)
    requires n == Prefix(V4(m.addr.bits - MAPPED), p.length - 96, false) && ValidPrefix(n)
    ensures Contains(n, a) <==> Denies(p, a)
  {
    MaskedContains(p, a);
    MaskedContains(p, Mapped(a));
    if a.V4? { MappedHolds4(m, n, a); } else { MappedHolds6(m, a); }
  }

  lemma MappedHolds4(m: Prefix, n: Prefix, a: Addr)
    requires ValidPrefix(m) && !m.zoned && Is4In6(m.addr) && m.length >= 96 && a.V4?
    requires n == Prefix(V4(m.addr.bits - MAPPED), m.length - 96, false) && ValidPrefix(n)
    ensures Contains(n, a) <==> Contains(m, Mapped(a))
  {
    var t := LongBlock(m);
    StripMapped(a.bits, n.addr.bits, Block(m), t);
  }

  lemma MappedHolds6(m: Prefix, a: Addr)
    requires ValidPrefix(m) && Is4In6(m.addr) && m.length >= 96 && a.V6? && !Is4In6(a)
    ensures !Contains(m, a)
  {
    var t := LongBlock(m);
    UpperBitsDiffer(a.bits, m.addr.bits, Block(m), t);
  }

  /** A prefix left in place holds no mapped address. */
  lemma UnmappedCase(p: Prefix, a: Addr)
    requires ValidPrefix(p) && !p.zoned && !Is4In6(Masked(p).addr) && Normalize(p).Some? && ValidAddr(a)
    ensures Contains(Normalize(p).value, a) <==> Denies(p, a)
  {
    MaskedContains(p, a);
    if a.V4? && p.addr.V6? {
      Pow2Of32();
      MaskedContains(p, Mapped(a));
      if p.length < 96 { ShortUnmapped(Masked(p), a.bits); } else { LongUnmapped(Masked(p), a.bits); }
    }
  }

  lemma ShortUnmapped(m: Prefix, v: nat)
    requires ValidPrefix(m) && m.addr.V6? && m.length < 96 && v < 0x1_0000_0000 && !Contains(m, V6(MAPPED))
    ensures !Contains(m, V6(MAPPED + v))
  {
    var t := ShortBlock(m);
    MappedQuotient(v);
    MappedQuotient(0);
    UpperBitsAgree(MAPPED, MAPPED + v, Block(m), t);
  }

  lemma LongUnmapped(m: Prefix, v: nat)
    requires ValidPrefix(m) && m.addr.V6? && m.length >= 96 && v < 0x1_0000_0000 && !Is4In6(m.addr)
    ensures !Contains(m, V6(MAPPED + v))
  {
    var t := LongBlock(m);
    MappedQuotient(v);
    UpperBitsDiffer(MAPPED + v, m.addr.bits, Block(m), t);
  }

  /** Every accepted prefix keeps its meaning. */
  lemma NormalizePreservesMeaning(p: Prefix)
    requires Normalize(p).Some?
    ensures Represents(Normalize(p).value, p)
  {
    forall x | ValidAddr(x)
      ensures ValidPrefix(Normalize(p).value) && (Contains(Normalize(p).value, Unmap(x)) <==> Denies(p, Unmap(x)))
    {
      UnmapIsValid(x);
      if Is4In6(Masked(p).addr) { MappedCase(p, Unmap(x)); } else { UnmappedCase(p, Unmap(x)); }
    }
    UnmapIsValid(V4(0));
    assert ValidAddr(V4(0));
  }

  /** A short IPv6 prefix over the mapped range denies addresses of both families. */
  lemma RejectedSpansFamilies(p: Prefix)
    requires ValidPrefix(p) && !p.zoned && p.addr.V6? && p.length < 96 && Contains(p, V6(MAPPED))
    ensures ValidAddr(V4(0)) && Denies(p, Unmap(V4(0)))
    ensures var w := V6(0xfffe * 0x1_0000_0000); ValidAddr(w) && Denies(p, Unmap(w)) && Unmap(w).V6?
  {
    WitnessAddress();
    ShortHolds(p, 0xfffe * 0x1_0000_0000);
  }

  lemma WitnessAddress()
    ensures 0xfffe * 0x1_0000_0000 < Pow2(128)
    ensures (0xfffe * 0x1_0000_0000) / 0x1_0000_0000 == 0xfffe
  {
    Pow2Of32();
    Pow2Add(32, 32);
    Pow2Doubles(64, 128);
  }

  lemma ShortHolds(p: Prefix, w: nat)
    requires ValidPrefix(p) && !p.zoned && p.addr.V6? && p.length < 96 && Contains(p, V6(MAPPED))
    requires w / 0x1_0000_0000 == 0xfffe
    ensures Contains(p, V6(w))
  {
    var t := ShortBlock(p);
    MappedQuotient(0);
    SameHalf(t);
    UpperBitsAgree(MAPPED, w, Block(p), t);
  }

  lemma SameHalf(t: nat)
    requires t > 0 && t % 2 == 0
    ensures 0xfffe / t == 0xffff / t
  {
    var q, r := 0xfffe / t, 0xfffe % t;
    var h := t / 2;
    assert 0xfffe == q * t + r;
    assert q * t == 2 * (q * h) by { assert t == 2 * h; Swap(q, h, 2); }
    assert r % 2 == 0;
    DivideUnique(0xffff, q, r + 1, t);
  }

  /** Normalisation refuses a well-formed prefix exactly when no single prefix could stand for it. */
  lemma RejectedOnlyWhenInexpressible(p: Prefix)
    requires ValidPrefix(p) && !p.zoned
    ensures Normalize(p).Some? <==> exists q :: Represents(q, p)
    ensures Normalize(p).None? <==> p.addr.V6? && p.length < 96 && Contains(p, V6(MAPPED))
  {
    MaskedContains(p, V6(MAPPED));
    if Normalize(p).Some? {
      NormalizePreservesMeaning(p);
      if Is4In6(Masked(p).addr) { MappedIsLong(p); }
    } else {
      RejectedSpansFamilies(p);
      forall q ensures !Represents(q, p) {
        if Represents(q, p) { assert false; }
      }
    }
  }

  // ---- the deny list ----

  /** The constructor's loop: accepted prefixes are kept in normal form, and any refusal is a
      configuration error. */
  method Configure(prefixes: seq<Prefix>) returns (nets: seq<Prefix>, misconfigured: bool)
    ensures misconfigured <==> exists p :: p in prefixes && Normalize(p).None?
    ensures forall q :: q in nets ==> ValidPrefix(q)
    ensures forall x :: ValidAddr(x) ==>
              ((exists q :: q in nets && Contains(q, Unmap(x))) <==> DeniedByAny(prefixes, Unmap(x)))
  {
    nets, misconfigured := [], false;
    for i := 0 to |prefixes|
      invariant misconfigured <==> exists p :: p in prefixes[..i] && Normalize(p).None?
      invariant forall q :: q in nets <==> exists p :: p in prefixes[..i] && Normalize(p) == Some(q)
    {
      assert prefixes[..i + 1] == prefixes[..i] + [prefixes[i]];
      match Normalize(prefixes[i]) {
        case None => misconfigured := true;
        case Some(q) => nets := nets + [q];
      }
    }
    assert prefixes[..|prefixes|] == prefixes;
    forall p | p in prefixes && Normalize(p).Some? ensures Represents(Normalize(p).value, p) {
      NormalizePreservesMeaning(p);
    }
    forall x | ValidAddr(x)
      ensures (exists q :: q in nets && Contains(q, Unmap(x))) <==> DeniedByAny(prefixes, Unmap(x))
    {
      forall p | p in prefixes && Normalize(p).Some? && Denies(p, Unmap(x))
        ensures exists q :: q in nets && Contains(q, Unmap(x))
      {
        assert Normalize(p).value in nets;
      }
    }
  }

  /** matchesDeniedPrefix. */
  method MatchesDenied(a: Addr, nets: seq<Prefix>) returns (denied: bool)
    requires forall q :: q in nets ==> ValidPrefix(q)
    ensures denied <==> exists q :: q in nets && Contains(q, a)
  {
    for i := 0 to |nets|
      invariant forall j :: 0 <= j < i ==> !Contains(nets[j], a)
    {
      if Contains(nets[i], a) { return true; }
    }
    return false;
  }

  datatype Network = Tcp | Tcp4 | Tcp6

  predicate MatchesNetwork(a: Addr, network: Network) {
    match network
    case Tcp => true
    case Tcp4 => a.V4?
    case Tcp6 => a.V6?
  }

  /** The destinations a policy leaves, read off the prefixes as the operator wrote them. `prohibited` is the
      built-in address policy. */
  ghost function Approved(addresses: seq<Addr>, prefixes: seq<Prefix>, network: Network, prohibited: Addr -> bool)
    : seq<Addr>
  {
    if addresses == [] then []
    else
      var init, a := addresses[..|addresses| - 1], Unmap(addresses[|addresses| - 1]);
      Approved(init, prefixes, network, prohibited) +
      if MatchesNetwork(a, network) && !prohibited(a) && !DeniedByAny(prefixes, a) then [a] else []
  }

  predicate DeniedByAny(prefixes: seq<Prefix>, a: Addr) {
    exists p :: p in prefixes && Normalize(p).Some? && Denies(p, a)
  }

  /** The address is of the family asked for, public enough, and in no written prefix that was accepted. */
  ghost predicate Dialable(a: Addr, prefixes: seq<Prefix>, network: Network, prohibited: Addr -> bool) {
    && (network == Tcp4 ==> a.V4?) && (network == Tcp6 ==> a.V6?) && !prohibited(a)
    && forall p <- prefixes :: Normalize(p).Some? ==> !Denies(p, a)
  }

  /** The resolver answered with this address, perhaps in its IPv4-mapped spelling. */
  ghost predicate Answered(addresses: seq<Addr>, a: Addr) { exists b :: b in addresses && Unmap(b) == a }

  /** Exactly the dialable answers are approved. */
  lemma {:induction false} ApprovedIsExact(addresses: seq<Addr>, prefixes: seq<Prefix>, network: Network,
                                           prohibited: Addr -> bool, a: Addr)
    ensures a in Approved(addresses, prefixes, network, prohibited) <==>
      Answered(addresses, a) && Dialable(a, prefixes, network, prohibited)
  {
    if addresses == [] {
    } else {
      var init, last := addresses[..|addresses| - 1], addresses[|addresses| - 1];
      ApprovedIsExact(init, prefixes, network, prohibited, a);
      assert addresses == init + [last];
      if Answered(init, a) {
        var b :| b in init && Unmap(b) == a;
        assert b in addresses;
      }
    }
  }

  ghost function CountMatching(addresses: seq<Addr>, network: Network): nat {
    if addresses == [] then 0
    else
      CountMatching(addresses[..|addresses| - 1], network) +
      if MatchesNetwork(Unmap(addresses[|addresses| - 1]), network) then 1 else 0
  }

  /** The candidate loop of DialContext over the normalised list keeps exactly what the written list approves. */
  method Candidates(addresses: seq<Addr>, prefixes: seq<Prefix>, network: Network, prohibited: Addr -> bool)
      returns (candidates: seq<Addr>, unsafe: nat, misconfigured: bool)
    requires forall a :: a in addresses ==> ValidAddr(a)
    ensures misconfigured <==> exists p :: p in prefixes && Normalize(p).None?
    ensures candidates == Approved(addresses, prefixes, network, prohibited)
    ensures unsafe + |candidates| == CountMatching(addresses, network)
  {
    var nets;
    nets, misconfigured := Configure(prefixes);
    candidates, unsafe := [], 0;
    for i := 0 to |addresses|
      invariant candidates == Approved(addresses[..i], prefixes, network, prohibited)
      invariant unsafe + |candidates| == CountMatching(addresses[..i], network)
    {
      assert addresses[..i + 1][..i] == addresses[..i];
      assert addresses[i] in addresses;
      var a := Unmap(addresses[i]);
      if !MatchesNetwork(a, network) { continue; }
      if prohibited(a) { unsafe := unsafe + 1; continue; }
      var denied := MatchesDenied(a, nets);
      if denied { unsafe := unsafe + 1; continue; }
      candidates := candidates + [a];
    }
    assert addresses[..|addresses|] == addresses;
  }

  // ---- interleaving of families ----

  /** The addresses of one family, in order. */
  function Family(s: seq<Addr>, v4: bool): seq<Addr> {
    if s == [] then [] else (if s[0].V4? == v4 then [s[0]] else []) + Family(s[1..], v4)
  }

  lemma {:induction false} FamilyAppend(s: seq<Addr>, a: Addr, v4: bool)
    ensures Family(s + [a], v4) == Family(s, v4) + (if a.V4? == v4 then [a] else [])
  {
    if s == [] {
      assert s + [a] == [a];
    } else {
      FamilyAppend(s[1..], a, v4);
      assert (s + [a])[1..] == s[1..] + [a];
      Regroup(if s[0].V4? == v4 then [s[0]] else [], Family(s[1..], v4), if a.V4? == v4 then [a] else []);
    }
  }

  lemma Regroup(x: seq<Addr>, y: seq<Addr>, z: seq<Addr>)
    ensures x + (y + z) == (x + y) + z
  {
  }

  lemma {:induction false} FamiliesPartition(s: seq<Addr>)
    ensures multiset(s) == multiset(Family(s, true)) + multiset(Family(s, false))
  {
    if s == [] {
    } else {
      FamiliesPartition(s[1..]);
      assert s == [s[0]] + s[1..];
    }
  }

  lemma {:induction false} FamilyMembers(s: seq<Addr>, v4: bool)
    ensures OnlyFamily(Family(s, v4), v4)
  {
    if s == [] {
    } else {
      FamilyMembers(s[1..], v4);
    }
  }

  predicate OnlyFamily(s: seq<Addr>, v4: bool) { forall i :: 0 <= i < |s| ==> s[i].V4? == v4 }

  /** Takes turns, starting with the wanted family, until one family runs out. */
  function Merge(v4: seq<Addr>, v6: seq<Addr>, wantV4: bool): seq<Addr>
    decreases |v4| + |v6|
  {
    if v4 == [] && v6 == [] then []
    else if v6 == [] || (wantV4 && v4 != []) then [v4[0]] + Merge(v4[1..], v6, !wantV4)
    else [v6[0]] + Merge(v4, v6[1..], !wantV4)
  }

  lemma {:induction false} MergeKeepsFamilies(v4: seq<Addr>, v6: seq<Addr>, wantV4: bool)
    requires OnlyFamily(v4, true) && OnlyFamily(v6, false)
    ensures Family(Merge(v4, v6, wantV4), true) == v4 && Family(Merge(v4, v6, wantV4), false) == v6
    decreases |v4| + |v6|
  {
    if v4 == [] && v6 == [] {
    } else if v6 == [] || (wantV4 && v4 != []) {
      MergeKeepsFamilies(v4[1..], v6, !wantV4);
    } else {
      MergeKeepsFamilies(v4, v6[1..], !wantV4);
    }
  }

  /** How many addresses can take turns, starting with a family of `first` addresses. */
  function Turns(first: nat, second: nat): nat { if first <= second then 2 * first else 2 * second + 1 }

  /** The families take turns for as long as the counts allow. */
  ghost predicate TakesTurns(s: seq<Addr>, startV4: bool) {
    var n := Turns(|Family(s, startV4)|, |Family(s, !startV4)|);
    n <= |s| && forall i :: 0 <= i < n ==> s[i].V4? == (startV4 == (i % 2 == 0))
  }

  lemma {:induction false} MergeTakesTurns(v4: seq<Addr>, v6: seq<Addr>, wantV4: bool, i: nat)
    requires OnlyFamily(v4, true) && OnlyFamily(v6, false)
    requires i < if wantV4 then Turns(|v4|, |v6|) else Turns(|v6|, |v4|)
    ensures i < |Merge(v4, v6, wantV4)| && Merge(v4, v6, wantV4)[i].V4? == (wantV4 == (i % 2 == 0))
  {
    if i == 0 {
    } else {
      if wantV4 {
        MergeTakesTurns(v4[1..], v6, false, i - 1);
      } else {
        MergeTakesTurns(v4, v6[1..], true, i - 1);
      }
    }
  }

  lemma {:induction false} MergeLength(v4: seq<Addr>, v6: seq<Addr>, wantV4: bool)
    ensures |Merge(v4, v6, wantV4)| == |v4| + |v6|
    decreases |v4| + |v6|
  {
    if v4 == [] && v6 == [] {
    } else if v6 == [] || (wantV4 && v4 != []) {
      MergeLength(v4[1..], v6, !wantV4);
    } else {
      MergeLength(v4, v6[1..], !wantV4);
    }
  }

  method SplitFamilies(addresses: seq<Addr>) returns (v4: seq<Addr>, v6: seq<Addr>)
    ensures v4 == Family(addresses, true) && v6 == Family(addresses, false)
  {
    v4, v6 := [], [];
    for i := 0 to |addresses|
      invariant v4 == Family(addresses[..i], true) && v6 == Family(addresses[..i], false)
    {
      FamilyAppend(addresses[..i], addresses[i], true);
      FamilyAppend(addresses[..i], addresses[i], false);
      assert addresses[..i + 1] == addresses[..i] + [addresses[i]];
      if addresses[i].V4? { v4 := v4 + [addresses[i]]; } else { v6 := v6 + [addresses[i]]; }
    }
    assert addresses[..|addresses|] == addresses;
  }

  method MergeFamilies(first4: seq<Addr>, first6: seq<Addr>, start: bool) returns (ordered: seq<Addr>)
    ensures ordered == Merge(first4, first6, start)
  {
    var v4, v6, wantV4 := first4, first6, start;
    ordered := [];
    while v4 != [] || v6 != []
      invariant ordered + Merge(v4, v6, wantV4) == Merge(first4, first6, start)
      decreases |v4| + |v6|
    {
      MergeStep(ordered, v4, v6, wantV4);
      if wantV4 && v4 != [] {
        ordered, v4 := ordered + [v4[0]], v4[1..];
      } else if !wantV4 && v6 != [] {
        ordered, v6 := ordered + [v6[0]], v6[1..];
      } else if v4 != [] {
        ordered, v4 := ordered + [v4[0]], v4[1..];
      } else {
        ordered, v6 := ordered + [v6[0]], v6[1..];
      }
      wantV4 := !wantV4;
    }
  }

  lemma MergeStep(ordered: seq<Addr>, v4: seq<Addr>, v6: seq<Addr>, wantV4: bool)
    requires v4 != [] || v6 != []
    ensures ordered + Merge(v4, v6, wantV4) ==
            if v6 == [] || (wantV4 && v4 != []) then (ordered + [v4[0]]) + Merge(v4[1..], v6, !wantV4)
            else (ordered + [v6[0]]) + Merge(v4, v6[1..], !wantV4)
  {
  }

  /** What the dialer promises of its attempt order: each family keeps its own order, the first address
      stays first, and the families take turns for as long as they can. */
  ghost predicate FairOrder(s: seq<Addr>, r: seq<Addr>) {
    && Family(r, true) == Family(s, true) && Family(r, false) == Family(s, false)
    && (s != [] ==> r != [] && r[0] == s[0] && TakesTurns(r, s[0].V4?))
  }

  /** interleaveAddressFamilies, a permutation in fair order. */
  method Interleave(addresses: seq<Addr>) returns (ordered: seq<Addr>)
    ensures multiset(ordered) == multiset(addresses)
    ensures FairOrder(addresses, ordered)
  {
    if |addresses| < 2 {
      return addresses;
    }
    var v4, v6 := SplitFamilies(addresses);
    ordered := MergeFamilies(v4, v6, addresses[0].V4?);
    MergeIsFair(addresses);
    SamePermutation(addresses, ordered);
  }

  lemma SamePermutation(s: seq<Addr>, r: seq<Addr>)
    requires Family(r, true) == Family(s, true) && Family(r, false) == Family(s, false)
    ensures multiset(r) == multiset(s)
  {
    FamiliesPartition(s);
    FamiliesPartition(r);
  }

  lemma MergeIsFair(s: seq<Addr>)
    requires s != []
    ensures FairOrder(s, Merge(Family(s, true), Family(s, false), s[0].V4?))
  {
    FamilyMembers(s, true);
    FamilyMembers(s, false);
    var v4, v6, start := Family(s, true), Family(s, false), s[0].V4?;
    assert if start then v4 != [] && v4[0] == s[0] else v6 != [] && v6[0] == s[0];
    MergeStarts(v4, v6, s[0]);
    MergeIsInTurns(v4, v6, start);
  }

  lemma MergeStarts(v4: seq<Addr>, v6: seq<Addr>, a: Addr)
    requires if a.V4? then v4 != [] && v4[0] == a else v6 != [] && v6[0] == a
    ensures Merge(v4, v6, a.V4?) != [] && Merge(v4, v6, a.V4?)[0] == a
  {
  }

  lemma MergeIsInTurns(v4: seq<Addr>, v6: seq<Addr>, start: bool)
    requires OnlyFamily(v4, true) && OnlyFamily(v6, false)
    ensures var r := Merge(v4, v6, start); Family(r, true) == v4 && Family(r, false) == v6 && TakesTurns(r, start)
  {
    var r := Merge(v4, v6, start);
    MergeKeepsFamilies(v4, v6, start);
    MergeLength(v4, v6, start);
    forall i | 0 <= i < if start then Turns(|v4|, |v6|) else Turns(|v6|, |v4|)
      ensures r[i].V4? == (start == (i % 2 == 0))
    {
      MergeTakesTurns(v4, v6, start, i);
    }
  }
}
