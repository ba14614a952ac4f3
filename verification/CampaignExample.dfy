/** A codec that has the properties of JSON lines which the campaign's guarantees rely on. */
module CampaignExample {
  import opened Basics
  import opened Campaign

  /** Two digits per byte, ended by a byte that is no digit. */
  function Escape(s: Bytes): Bytes { if s == [] then [1] else [16 + s[0] / 16, 16 + s[0] % 16] + Escape(s[1..]) }

  function Tag(e: Event): byte { match e case Started(_, _) => 2 case Failed(_, _) => 3 case Completed(_, _, _) => 4 }

  function Fields(e: Event): Bytes {
    match e
    case Started(id, rest) => Escape(id) + Escape(rest)
    case Failed(id, rest) => Escape(id) + Escape(rest)
    case Completed(id, digest, rest) => Escape(id) + (Escape(digest) + Escape(rest))
  }

  function Code(e: Event): Bytes { [Tag(e)] + Fields(e) }

  ghost function Decode(b: Bytes): Decoded {
    if e :| Code(e) == b then Parsed(e) else Malformed
  }

  ghost function Example(samples: seq<Id>): World {
    World(samples, e => Code(e), b => Decode(b), _ => true, [35, 10], _ => [44, 10])
  }

  /** An escaped string ends where it ends, whatever follows. */
  lemma {:induction false} EscapeIsPrefixFree(a: Bytes, x: Bytes, b: Bytes, y: Bytes)
    requires Escape(a) + x == Escape(b) + y
    ensures a == b && x == y
  {
    var all := Escape(a) + x;
    assert all[0] == Escape(a)[0] == Escape(b)[0];
    if a == [] || b == [] {
      assert x == all[1..] && y == all[1..];
    } else {
      assert all[1] == Escape(a)[1] == Escape(b)[1];
      assert Escape(a[1..]) + x == all[2..] && Escape(b[1..]) + y == all[2..];
      EscapeIsPrefixFree(a[1..], x, b[1..], y);
      assert a == [a[0]] + a[1..] && b == [b[0]] + b[1..];
    }
  }

  lemma {:induction false} EscapeHasNoBreak(s: Bytes)
    ensures !Breaks(Escape(s)) && Escape(s) != []
  {
    if s == [] {
    } else {
      EscapeHasNoBreak(s[1..]);
      NoBreakConcat([16 + s[0] / 16, 16 + s[0] % 16], Escape(s[1..]));
    }
  }

  lemma NoBreakConcat(a: Bytes, b: Bytes)
    requires !Breaks(a) && !Breaks(b)
    ensures !Breaks(a + b)
  {
  }

  lemma CodeHasNoBreak(e: Event)
    ensures !Breaks(Code(e)) && Code(e) != []
  {
    EscapeHasNoBreak(e.id);
    EscapeHasNoBreak(e.rest);
    match e
    case Started(id, rest) => NoBreakConcat(Escape(id), Escape(rest));
    case Failed(id, rest) => NoBreakConcat(Escape(id), Escape(rest));
    case Completed(id, digest, rest) =>
      EscapeHasNoBreak(digest);
      NoBreakConcat(Escape(digest), Escape(rest));
      NoBreakConcat(Escape(id), Escape(digest) + Escape(rest));
  }

  lemma Associate(a: Bytes, b: Bytes, c: Bytes)
    ensures (a + b) + c == a + (b + c)
  {
  }

  lemma AppendNothing(a: Bytes)
    ensures a + [] == a
  {
  }

  /** Strips the first of several strings from both sides. */
  lemma FirstString(a: Bytes, more: Bytes, x: Bytes, b: Bytes, y: Bytes)
    requires (Escape(a) + more) + x == Escape(b) + y
    ensures a == b && more + x == y
  {
    Associate(Escape(a), more, x);
    EscapeIsPrefixFree(a, more + x, b, y);
  }

  lemma LastString(a: Bytes, x: Bytes, b: Bytes)
    requires Escape(a) + x == Escape(b)
    ensures a == b && x == []
  {
    AppendNothing(Escape(b));
    EscapeIsPrefixFree(a, x, b, []);
  }

  lemma SameHead(s: byte, a: Bytes, x: Bytes, t: byte, b: Bytes)
    requires ([s] + a) + x == [t] + b
    ensures s == t && a + x == b
  {
    var all := [t] + b;
    assert all[0] == t && all[1..] == b;
    assert (([s] + a) + x)[0] == s && (([s] + a) + x)[1..] == a + x;
  }

  /** No code is a proper prefix of another. */
  lemma CodeIsPrefixFree(e: Event, x: Bytes, f: Event)
    requires Code(e) + x == Code(f)
    ensures e == f && x == []
  {
    SameHead(Tag(e), Fields(e), x, Tag(f), Fields(f));
    match e
    case Started(id, rest) => FirstString(id, Escape(rest), x, f.id, Escape(f.rest)); LastString(rest, x, f.rest);
    case Failed(id, rest) => FirstString(id, Escape(rest), x, f.id, Escape(f.rest)); LastString(rest, x, f.rest);
    case Completed(id, digest, rest) =>
      FirstString(id, Escape(digest) + Escape(rest), x, f.id, Escape(f.digest) + Escape(f.rest));
      FirstString(digest, Escape(rest), x, f.digest, Escape(f.rest));
      LastString(rest, x, f.rest);
  }

  lemma CodeIsLawful(samples: seq<Id>, e: Event)
    ensures Encodes(Example(samples), e)
  {
    CodeHasNoBreak(e);
    CodeDecodes(e);
    forall k | 0 <= k < |Code(e)| ensures Example(samples).decode(Code(e)[..k]) == Malformed { PartIsMalformed(e, k); }
  }

  lemma CodeDecodes(e: Event)
    ensures Decode(Code(e)) == Parsed(e)
  {
    forall f | Code(f) == Code(e) ensures f == e {
      AppendNothing(Code(f));
      CodeIsPrefixFree(f, [], e);
    }
  }

  lemma PartIsMalformed(e: Event, k: nat)
    requires k < |Code(e)|
    ensures Decode(Code(e)[..k]) == Malformed
  {
    var part, rest := Code(e)[..k], Code(e)[k..];
    assert part + rest == Code(e) && rest != [];
    forall f ensures Code(f) != part {
      if Code(f) == part { CodeIsPrefixFree(f, rest, e); }
    }
  }

  /** The premise of the campaign's guarantees can be met, for every schedule of distinct samples. */
  lemma LawfulWorldExists(samples: seq<Id>)
    requires forall i, j :: 0 <= i < j < |samples| ==> samples[i] != samples[j]
    ensures Lawful(Example(samples)) && Example(samples).samples == samples
  {
    forall e ensures Encodes(Example(samples), e) { CodeIsLawful(samples, e); }
  }
}
