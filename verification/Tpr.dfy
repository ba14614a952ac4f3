/**
 * The TPR-at-FPR sweep of scripts/stealth-classify.py: one pass over the scores, from the highest down,
 * against the best threshold among all extended reals.
 */
module Tpr {
  import opened Basics

  /** A Python float; rounding is not modelled. */
  datatype Float = Finite(value: real) | NonFinite

  datatype Prediction = Prediction(truth: int, score: Float)

  datatype Outcome = Rate(tpr: real) | InsufficientEvidence | ValueError

  /** A detector flags every score at or above its threshold. */
  datatype Threshold = MinusInfinity | At(cut: real) | PlusInfinity

  predicate Flags(t: Threshold, p: Prediction) {
    match t
    case MinusInfinity => true
    case At(cut) => p.score.Finite? && p.score.value >= cut
    case PlusInfinity => false
  }

  /** How many samples with this label the detector flags. */
  function Count(s: seq<Prediction>, truth: int, t: Threshold): nat {
    if s == [] then 0
    else
      Count(s[..|s| - 1], truth, t) +
      if s[|s| - 1].truth == truth && Flags(t, s[|s| - 1]) then 1 else 0
  }

  function Total(s: seq<Prediction>, truth: int): nat { Count(s, truth, MinusInfinity) }

  function Quotient(n: nat, d: nat): real
    requires d > 0
  {
    n as real / d as real
  }

  lemma QuotientMonotone(m: nat, n: nat, d: nat)
    requires d > 0 && m <= n
    ensures Quotient(m, d) <= Quotient(n, d)
  {
  }

  function RequiredNegatives(maximum: real): int
    requires maximum >= 0.0
  {
    if maximum > 0.0 then Ceil(1.0 / maximum) else 1
  }

  predicate AllFinite(s: seq<Prediction>) { forall i :: 0 <= i < |s| ==> s[i].score.Finite? }

  /** The threshold's false-positive rate is within the bound. */
  predicate Within(s: seq<Prediction>, t: Threshold, maximum: real)
    requires Total(s, 0) > 0
  {
    Quotient(Count(s, 0, t), Total(s, 0)) <= maximum
  }

  // ---- counting ----

  lemma {:induction false} CountPrefix(s: seq<Prediction>, k: nat, truth: int, t: Threshold)
    requires k <= |s|
    ensures Count(s[..k], truth, t) <= Count(s, truth, t)
    ensures (forall i :: k <= i < |s| ==> !Flags(t, s[i])) ==> Count(s[..k], truth, t) == Count(s, truth, t)
  {
    if k < |s| {
      CountPrefix(s[..|s| - 1], k, truth, t);
      assert s[..|s| - 1][..k] == s[..k];
    } else {
      assert s[..k] == s;
    }
  }

  lemma {:induction false} CountAtMostTotal(s: seq<Prediction>, truth: int, t: Threshold)
    ensures Count(s, truth, t) <= Total(s, truth)
    ensures (forall i :: 0 <= i < |s| ==> Flags(t, s[i])) ==> Count(s, truth, t) == Total(s, truth)
  {
    if s == [] {
    } else {
      CountAtMostTotal(s[..|s| - 1], truth, t);
    }
  }

  lemma {:induction false} NothingFlagged(s: seq<Prediction>, truth: int)
    ensures Count(s, truth, PlusInfinity) == 0
  {
    if s == [] {
    } else {
      NothingFlagged(s[..|s| - 1], truth);
    }
  }

  // ---- sorting ----

  predicate Descending(s: seq<Prediction>)
    requires AllFinite(s)
  {
    forall i, j :: 0 <= i < j < |s| ==> s[i].score.value >= s[j].score.value
  }

  /** Where a stable descending sort puts `p`: behind every score that is at least its own. */
  function Place(s: seq<Prediction>, p: Prediction): (k: nat)
    requires AllFinite(s) && Descending(s) && p.score.Finite?
    ensures k <= |s|
    ensures forall i :: 0 <= i < k ==> s[i].score.value >= p.score.value
    ensures forall i :: k <= i < |s| ==> s[i].score.value < p.score.value
  {
    if s == [] || s[|s| - 1].score.value >= p.score.value then |s| else Place(s[..|s| - 1], p)
  }

  function Insert(s: seq<Prediction>, p: Prediction): (r: seq<Prediction>)
    requires AllFinite(s) && Descending(s) && p.score.Finite?
    ensures AllFinite(r) && Descending(r) && |r| == |s| + 1
  {
    var k := Place(s, p);
    s[..k] + [p] + s[k..]
  }

  function Sorted(s: seq<Prediction>): (r: seq<Prediction>)
    requires AllFinite(s)
    ensures AllFinite(r) && Descending(r) && |r| == |s|
  {
    if s == [] then []
    else
      Insert(Sorted(s[..|s| - 1]), s[|s| - 1])
  }

  lemma {:induction false} CountConcat(a: seq<Prediction>, b: seq<Prediction>, truth: int, t: Threshold)
    ensures Count(a + b, truth, t) == Count(a, truth, t) + Count(b, truth, t)
  {
    if b == [] {
      assert a + b == a;
    } else {
      CountConcat(a, b[..|b| - 1], truth, t);
      assert (a + b)[..|a + b| - 1] == a + b[..|b| - 1];
    }
  }

  lemma CountInsert(s: seq<Prediction>, p: Prediction, truth: int, t: Threshold)
    requires AllFinite(s) && Descending(s) && p.score.Finite?
    ensures Count(Insert(s, p), truth, t) == Count(s + [p], truth, t)
  {
    var k := Place(s, p);
    CountConcat(s[..k], [p], truth, t);
    CountConcat(s[..k] + [p], s[k..], truth, t);
    CountConcat(s[..k], s[k..], truth, t);
    assert s == s[..k] + s[k..];
    CountConcat(s, [p], truth, t);
  }

  /** Sorting changes no detector's counts. */
  lemma {:induction false} CountSorted(s: seq<Prediction>, truth: int, t: Threshold)
    requires AllFinite(s)
    ensures Count(Sorted(s), truth, t) == Count(s, truth, t)
  {
    if s == [] {
    } else {
      var init, last := s[..|s| - 1], s[|s| - 1];
      CountSorted(init, truth, t);
      CountInsert(Sorted(init), last, truth, t);
      assert (Sorted(init) + [last])[..|init|] == Sorted(init);
    }
  }

  // ---- the sweep ----

  /** `k` does not split a block of tied scores. */
  predicate Boundary(s: seq<Prediction>, k: nat)
    requires AllFinite(s) && k <= |s|
  {
    0 < k < |s| ==> s[k - 1].score.value > s[k].score.value
  }

  /** The threshold that flags exactly the first `k` scores. */
  function CutAfter(s: seq<Prediction>, k: nat): Threshold
    requires AllFinite(s) && k <= |s|
  {
    if k == 0 then PlusInfinity else At(s[k - 1].score.value)
  }

  lemma CutCounts(s: seq<Prediction>, k: nat, truth: int)
    requires AllFinite(s) && Descending(s) && k <= |s| && Boundary(s, k)
    ensures Count(s, truth, CutAfter(s, k)) == Total(s[..k], truth)
  {
    CountPrefix(s, k, truth, CutAfter(s, k));
    CountAtMostTotal(s[..k], truth, CutAfter(s, k));
  }

  /** A threshold either flags all of the block that ends at `k`, or nothing from its start `b` on. */
  lemma AroundBlock(s: seq<Prediction>, b: nat, k: nat, t: Threshold, truth: int)
    requires AllFinite(s) && Descending(s) && b < k <= |s|
    requires forall i :: b <= i < k ==> s[i].score == s[b].score
    ensures Count(s, truth, t) <= Total(s[..b], truth) || (forall l :: Count(s, l, t) >= Total(s[..k], l))
  {
    if Flags(t, s[b]) {
      forall l ensures Count(s, l, t) >= Total(s[..k], l) {
        CountPrefix(s, k, l, t);
        CountAtMostTotal(s[..k], l, t);
      }
    } else {
      CountPrefix(s, b, truth, t);
      CountAtMostTotal(s[..b], truth, t);
    }
  }

  /** No threshold within the bound flags more than `best` positives, and some threshold flags that many. */
  ghost predicate IsBest(s: seq<Prediction>, maximum: real, best: nat)
    requires Total(s, 0) > 0
  {
    && (exists t :: Within(s, t, maximum) && Count(s, 1, t) == best)
    && (forall t :: Within(s, t, maximum) ==> Count(s, 1, t) <= best)
  }

  /** When the next block would break the bound, what was flagged before it is optimal. */
  lemma StopIsBest(s: seq<Prediction>, b: nat, k: nat, maximum: real)
    requires AllFinite(s) && Descending(s) && b < k <= |s| && Boundary(s, b) && Total(s, 0) > 0
    requires forall i :: b <= i < k ==> s[i].score == s[b].score
    requires Quotient(Total(s[..b], 0), Total(s, 0)) <= maximum < Quotient(Total(s[..k], 0), Total(s, 0))
    ensures IsBest(s, maximum, Total(s[..b], 1))
  {
    CutCounts(s, b, 0);
    CutCounts(s, b, 1);
    assert Within(s, CutAfter(s, b), maximum);
    forall t | Within(s, t, maximum) ensures Count(s, 1, t) <= Total(s[..b], 1) {
      AroundBlock(s, b, k, t, 1);
      if Count(s, 0, t) >= Total(s[..k], 0) {
        QuotientMonotone(Total(s[..k], 0), Count(s, 0, t), Total(s, 0));
      }
    }
  }

  /** When every block fits, flagging everything is optimal. */
  lemma EndIsBest(s: seq<Prediction>, maximum: real)
    requires AllFinite(s) && Descending(s) && Total(s, 0) > 0
    requires Quotient(Total(s, 0), Total(s, 0)) <= maximum
    ensures IsBest(s, maximum, Total(s, 1))
  {
    assert Within(s, MinusInfinity, maximum);
    forall t ensures Count(s, 1, t) <= Total(s, 1) { CountAtMostTotal(s, 1, t); }
  }

  method Sweep(ordered: seq<Prediction>, negatives: nat, maximum: real) returns (best: nat)
    requires AllFinite(ordered) && Descending(ordered) && negatives == Total(ordered, 0) > 0 && maximum >= 0.0
    ensures IsBest(ordered, maximum, best)
  {
    var truePositives, falsePositives, index := 0, 0, 0;
    best := 0;
    while index < |ordered|
      invariant index <= |ordered| && Boundary(ordered, index)
      invariant truePositives == Total(ordered[..index], 1) == best
      invariant falsePositives == Total(ordered[..index], 0)
      invariant Quotient(falsePositives, negatives) <= maximum
    {
      var score, start := ordered[index].score, index;
      while index < |ordered| && ordered[index].score == score
        invariant start <= index <= |ordered| && (index == start ==> ordered[start].score == score)
        invariant forall i :: start <= i < index ==> ordered[i].score == score
        invariant truePositives == Total(ordered[..index], 1)
        invariant falsePositives == Total(ordered[..index], 0)
      {
        assert ordered[..index + 1][..index] == ordered[..index];
        if ordered[index].truth == 1 { truePositives := truePositives + 1; }
        if ordered[index].truth == 0 { falsePositives := falsePositives + 1; }
        index := index + 1;
      }
      if Quotient(falsePositives, negatives) > maximum {
        StopIsBest(ordered, start, index, maximum);
        return;
      }
      best := truePositives;
    }
    assert ordered[..index] == ordered;
    EndIsBest(ordered, maximum);
  }

  /** The brute-force reference: `tpr` is the largest true-positive rate of any threshold within the bound. */
  ghost predicate IsBestRate(s: seq<Prediction>, maximum: real, tpr: real)
    requires Total(s, 0) > 0 && Total(s, 1) > 0
  {
    && (exists t :: Within(s, t, maximum) && tpr == Quotient(Count(s, 1, t), Total(s, 1)))
    && (forall t :: Within(s, t, maximum) ==> Quotient(Count(s, 1, t), Total(s, 1)) <= tpr)
  }

  lemma BestRate(s: seq<Prediction>, ordered: seq<Prediction>, maximum: real, best: nat)
    requires AllFinite(s) && ordered == Sorted(s) && Total(s, 0) > 0 && Total(s, 1) > 0
    requires Total(ordered, 0) > 0 && IsBest(ordered, maximum, best)
    ensures IsBestRate(s, maximum, Quotient(best, Total(s, 1)))
  {
    forall t, truth ensures Count(ordered, truth, t) == Count(s, truth, t) { CountSorted(s, truth, t); }
    forall t | Within(s, t, maximum) ensures Quotient(Count(s, 1, t), Total(s, 1)) <= Quotient(best, Total(s, 1)) {
      assert Within(ordered, t, maximum);
      QuotientMonotone(Count(s, 1, t), best, Total(s, 1));
    }
    var t :| Within(ordered, t, maximum) && Count(ordered, 1, t) == best;
    assert Within(s, t, maximum);
  }

  predicate BadBound(maximum: Float) { maximum.NonFinite? || maximum.value < 0.0 || maximum.value > 1.0 }

  predicate LacksEvidence(s: seq<Prediction>, maximum: real)
    requires maximum >= 0.0
  {
    Total(s, 1) == 0 || Total(s, 0) == 0 || Total(s, 0) < RequiredNegatives(maximum)
  }

  /** tpr_at_fpr. */
  method TprAtFpr(predictions: seq<Prediction>, maximum: Float) returns (r: Outcome)
    ensures r.ValueError? <==>
            BadBound(maximum) || (!LacksEvidence(predictions, maximum.value) && !AllFinite(predictions))
    ensures r.InsufficientEvidence? <==> !BadBound(maximum) && LacksEvidence(predictions, maximum.value)
    ensures r.Rate? ==> Total(predictions, 0) > 0 && Total(predictions, 1) > 0
    ensures r.Rate? ==> IsBestRate(predictions, maximum.value, r.tpr)
  {
    if BadBound(maximum) { return ValueError; }
    var positives, negatives := Total(predictions, 1), Total(predictions, 0);
    if positives == 0 || negatives == 0 { return InsufficientEvidence; }
    if negatives < RequiredNegatives(maximum.value) { return InsufficientEvidence; }
    if !AllFinite(predictions) { return ValueError; }
    var ordered := Sorted(predictions);
    CountSorted(predictions, 0, MinusInfinity);
    var best := Sweep(ordered, negatives, maximum.value);
    BestRate(predictions, ordered, maximum.value, best);
    return Rate(Quotient(best, positives));
  }

  /** The evidence gate asks for enough negatives that a single false positive is within the bound. */
  lemma EvidenceResolvesTheBound(s: seq<Prediction>, maximum: real)
    requires 0.0 < maximum && Total(s, 0) > 0
    ensures Total(s, 0) >= RequiredNegatives(maximum) <==> Quotient(1, Total(s, 0)) <= maximum
  {
    var n := Total(s, 0);
    CeilIsLeast(1.0 / maximum, n);
    CrossMultiply(maximum, n as real);
  }

  lemma CeilIsLeast(x: real, n: int)
    ensures Ceil(x) <= n <==> x <= n as real
  {
  }

  lemma CrossMultiply(a: real, b: real)
    requires a > 0.0 && b > 0.0
    ensures 1.0 / a <= b <==> 1.0 / b <= a
  {
    AtLeastInverse(a, b);
    AtLeastInverse(b, a);
  }

  lemma AtLeastInverse(a: real, b: real)
    requires a > 0.0 && b > 0.0
    ensures 1.0 / a <= b <==> 1.0 <= a * b
  {
    var p := 1.0 / a;
    assert a * p == 1.0;
    Scale(p, b, a);
    Scale(b, p, a);
  }

  lemma Scale(x: real, y: real, a: real)
    requires a > 0.0
    ensures x < y ==> a * x < a * y
    ensures x <= y ==> a * x <= a * y
  {
  }
}
