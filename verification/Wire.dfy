/** Big-endian integers, the fixed-width fields of both wire formats. */
module Wire {
  import opened Basics

  function Pow256(width: nat): (p: nat)
    ensures p > 0
  {
    if width == 0 then 1 else 256 * Pow256(width - 1)
  }

  function PutBE(width: nat, v: nat): (s: Bytes)
    ensures |s| == width
  {
    if width == 0 then [] else PutBE(width - 1, v / 256) + [v % 256]
  }

  function GetBE(s: Bytes): (v: nat)
    ensures v < Pow256(|s|)
  {
    if s == [] then 0 else GetBE(s[..|s| - 1]) * 256 + s[|s| - 1]
  }

  lemma {:induction false} GetPut(width: nat, v: nat)
    requires v < Pow256(width)
    ensures GetBE(PutBE(width, v)) == v
  {
    if width == 0 {
    } else {
      GetPut(width - 1, v / 256);
      assert PutBE(width, v)[..width - 1] == PutBE(width - 1, v / 256);
    }
  }

  lemma {:induction false} PutGet(s: Bytes)
    ensures PutBE(|s|, GetBE(s)) == s
  {
    if s == [] {
    } else {
      PutGet(s[..|s| - 1]);
      assert s == s[..|s| - 1] + [s[|s| - 1]];
    }
  }

  /** Network order: the first byte is the most significant one. */
  lemma {:induction false} FirstByteWeighsMost(s: Bytes)
    requires s != []
    ensures GetBE(s) == s[0] * Pow256(|s| - 1) + GetBE(s[1..])
  {
    if |s| == 1 {
      assert GetBE(s[..0]) == 0;
    } else {
      FirstByteWeighsMost(s[..|s| - 1]);
      assert s[..|s| - 1][1..] == s[1..][..|s| - 2];
      Shift(s[0], Pow256(|s| - 2), GetBE(s[1..][..|s| - 2]));
    }
  }

  lemma Shift(a: nat, p: nat, v: nat)
    ensures (a * p + v) * 256 == a * (256 * p) + v * 256
  {
  }

  lemma Widths()
    ensures Pow256(1) == 0x100 && Pow256(2) == 0x1_0000 && Pow256(4) == 0x1_0000_0000
    ensures Pow256(8) == 0x1_0000_0000_0000_0000
  {
    assert Pow256(3) == 0x100_0000;
    assert Pow256(5) == 0x100_0000_0000;
    assert Pow256(6) == 0x1_0000_0000_0000;
    assert Pow256(7) == 0x100_0000_0000_0000;
  }

  /** Copies `data` into `a` from `off` on; a field is written right after the ones before it. */
  method Put(a: array<byte>, off: nat, data: Bytes)
    requires off + |data| <= a.Length
    modifies a
    ensures a[..off + |data|] == old(a[..off]) + data
    ensures a[off + |data|..] == old(a[off + |data|..])
  {
    var i := 0;
    while i < |data|
      invariant 0 <= i <= |data|
      invariant a[..off] == old(a[..off]) && a[off..off + i] == data[..i]
      invariant a[off + |data|..] == old(a[off + |data|..])
    {
      a[off + i] := data[i];
      i := i + 1;
    }
    assert a[..off + |data|] == a[..off] + a[off..off + |data|];
  }

  lemma InThree(b: Bytes, m: nat, n: nat)
    requires m + n <= |b|
    ensures b == b[..m] + b[m..m + n] + b[m + n..]
  {
  }
}
