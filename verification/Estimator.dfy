/** The delivery-rate estimator of internal/accel/adaptive.go: a ring buffer of the last eight samples. */
module Estimator {
  import opened Basics

  const WINDOW: nat := 8

  datatype Profile = Conservative | Balanced | Aggressive

  datatype Settings = Settings(
    pacingGain: real, rttThreshold: real, minimumRTTFactor: real,
    lossThreshold: real, lossSensitivity: real, minimumLossFactor: real)

  function SettingsFor(profile: Profile): (s: Settings)
    ensures Sane(s) && s.pacingGain >= 1.0
  {
    match profile
    case Conservative => Settings(1.00, 1.15, 0.50, 0.01, 2.00, 0.50)
    case Aggressive => Settings(1.18, 1.50, 0.70, 0.06, 1.00, 0.70)
    case Balanced => Settings(1.08, 1.30, 0.60, 0.03, 1.50, 0.60)
  }

  /** The samples that still count: the last eight accepted since the last reset. */
  function Recent(history: seq<real>): seq<real> {
    if |history| <= WINDOW then history else history[|history| - WINDOW..]
  }

  ghost predicate IsMaximum(s: seq<real>, m: real) {
    m in s && forall x <- s :: x <= m
  }

  function MaxOf(s: seq<real>): (m: real)
    requires s != []
    ensures IsMaximum(s, m)
  {
    assert s == [s[0]] + s[1..];
    if |s| == 1 then s[0] else MaxReal(s[0], MaxOf(s[1..]))
  }

  /** The sliding-window specification of the bandwidth estimate. */
  function Estimate(initialRate: real, history: seq<real>): real {
    if history == [] then initialRate else MaxOf(Recent(history))
  }

  function Accept(initialRate: real, history: seq<real>, deliveredRate: real, pacingLimited: bool): seq<real> {
    var d := MaxReal(0.0, deliveredRate);
    if !pacingLimited || d > Estimate(initialRate, history) then history + [d] else history
  }

  /** What the configured factors promise; SettingsFor meets it for every profile. */
  ghost predicate Sane(s: Settings) {
    && s.pacingGain >= 0.0 && s.rttThreshold > 0.0 && s.lossSensitivity >= 0.0
    && 0.0 <= s.minimumRTTFactor <= 1.0 && 0.0 <= s.minimumLossFactor <= 1.0
  }

  function RttFactor(s: Settings, minimumRTT: int, smoothedRTT: int): (f: real)
    requires minimumRTT > 0 && smoothedRTT > 0
    ensures Sane(s) ==> s.minimumRTTFactor <= f <= 1.0
  {
    var rttRatio := smoothedRTT as real / minimumRTT as real;
    if rttRatio > s.rttThreshold then
      assert Sane(s) ==> s.rttThreshold / rttRatio <= 1.0 by {
        if Sane(s) { QuotientBelowOne(s.rttThreshold, rttRatio); }
      }
      MaxReal(s.minimumRTTFactor, s.rttThreshold / rttRatio)
    else 1.0
  }

  function LossFactor(s: Settings, lossRatio: real): (f: real)
    ensures Sane(s) ==> s.minimumLossFactor <= f <= 1.0
  {
    if lossRatio > s.lossThreshold then
      assert Sane(s) ==> (lossRatio - s.lossThreshold) * s.lossSensitivity >= 0.0 by {
        if Sane(s) { MultiplyOrdered(0.0, lossRatio - s.lossThreshold, s.lossSensitivity); }
      }
      MaxReal(s.minimumLossFactor, 1.0 - (lossRatio - s.lossThreshold) * s.lossSensitivity)
    else 1.0
  }

  function Target(s: Settings, bottleneck: real, lossRatio: real, minimumRTT: int, smoothedRTT: int): real
    requires minimumRTT > 0 && smoothedRTT > 0
  {
    Delayed(s, bottleneck, RttFactor(s, minimumRTT, smoothedRTT)) * LossFactor(s, lossRatio)
  }

  function Gained(s: Settings, bottleneck: real): real { bottleneck * s.pacingGain }

  function Delayed(s: Settings, bottleneck: real, factor: real): real { Gained(s, bottleneck) * factor }

  // ---- properties of the specification ----

  /** A pacing-limited sample never lowers the estimate. */
  lemma LimitedSampleNeverLowers(initialRate: real, history: seq<real>, deliveredRate: real)
    ensures Estimate(initialRate, Accept(initialRate, history, deliveredRate, true)) >= Estimate(initialRate, history)
  {
    var grown := Accept(initialRate, history, deliveredRate, true);
    if grown != history {
      assert Recent(grown)[|Recent(grown)| - 1] == MaxReal(0.0, deliveredRate);
      assert MaxReal(0.0, deliveredRate) in Recent(grown);
    }
  }

  /** An unlimited sample pushes out the one eight samples older, so an old maximum can age out. */
  lemma EightUnlimitedSamplesForgetThePast(initialRate: real, history: seq<real>, last: seq<real>)
    requires |last| >= WINDOW
    ensures Estimate(initialRate, history + last) == MaxOf(Recent(last))
  {
    assert Recent(history + last) == Recent(last);
  }

  lemma Scale(t: real, f: real, lo: real)
    requires t >= 0.0 && lo <= f <= 1.0
    ensures t * lo <= t * f <= t
  {
  }

  lemma ScaleTwice(low: real, mid: real, t: real, f: real, lo: real)
    requires 0.0 <= mid && low <= mid <= t && 0.0 <= lo <= f <= 1.0
    ensures low * lo <= mid * f <= t
  {
    MultiplyOrdered(low, mid, lo);
    Scale(mid, f, lo);
  }

  lemma DelayedWithin(s: Settings, bottleneck: real, f: real, lo: real)
    requires s.pacingGain >= 0.0 && bottleneck >= 0.0 && 0.0 <= lo <= f <= 1.0
    ensures 0.0 <= Delayed(s, bottleneck, f)
    ensures Delayed(s, bottleneck, lo) <= Delayed(s, bottleneck, f) <= Gained(s, bottleneck)
  {
    var g := Gained(s, bottleneck);
    assert g >= 0.0 by { MultiplyOrdered(0.0, bottleneck, s.pacingGain); }
    Scale(g, f, lo);
    Scale(g, f, 0.0);
    assert Delayed(s, bottleneck, f) == g * f && Delayed(s, bottleneck, lo) == g * lo;
  }

  /** The target lies between gain * floors * estimate and gain * estimate. */
  lemma TargetWithinFactors(s: Settings, bottleneck: real, lossRatio: real, minimumRTT: int, smoothedRTT: int)
    requires Sane(s) && minimumRTT > 0 && smoothedRTT > 0 && bottleneck >= 0.0
    ensures Delayed(s, bottleneck, s.minimumRTTFactor) * s.minimumLossFactor
         <= Target(s, bottleneck, lossRatio, minimumRTT, smoothedRTT)
         <= Gained(s, bottleneck)
  {
    var f := RttFactor(s, minimumRTT, smoothedRTT);
    DelayedWithin(s, bottleneck, f, s.minimumRTTFactor);
    ScaleTwice(Delayed(s, bottleneck, s.minimumRTTFactor), Delayed(s, bottleneck, f), Gained(s, bottleneck),
               LossFactor(s, lossRatio), s.minimumLossFactor);
  }

  /** Without a grown queue or noticeable loss the target is the plain gain over the estimate. */
  lemma CleanPathTarget(s: Settings, bottleneck: real, lossRatio: real, minimumRTT: int, smoothedRTT: int)
    requires minimumRTT > 0 && smoothedRTT > 0 && lossRatio <= s.lossThreshold
    requires smoothedRTT as real / minimumRTT as real <= s.rttThreshold
    ensures Target(s, bottleneck, lossRatio, minimumRTT, smoothedRTT) == bottleneck * s.pacingGain
  {
    assert RttFactor(s, minimumRTT, smoothedRTT) == 1.0 && LossFactor(s, lossRatio) == 1.0;
  }

  /** The delay factor is one up to the threshold; beyond it the factor undoes the excess, but not below its floor. */
  lemma RttFactorIsExact(s: Settings, minimumRTT: int, smoothedRTT: int)
    requires minimumRTT > 0 && smoothedRTT > 0
    ensures var f, allowed := RttFactor(s, minimumRTT, smoothedRTT), s.rttThreshold * minimumRTT as real;
            && (smoothedRTT as real <= allowed ==> f == 1.0)
            && (smoothedRTT as real > allowed ==>
                  f >= s.minimumRTTFactor && f * smoothedRTT as real >= allowed
                  && (f == s.minimumRTTFactor || f * smoothedRTT as real == allowed))
  {
    var low, high := minimumRTT as real, smoothedRTT as real;
    var ratio := high / low;
    assert ratio * low == high;
    if high <= s.rttThreshold * low {
      if ratio > s.rttThreshold { StrictlyOrdered(s.rttThreshold, ratio, low); }
    } else {
      if ratio <= s.rttThreshold { MultiplyOrdered(ratio, s.rttThreshold, low); }
      var x := s.rttThreshold / ratio;
      RatioPositive(ratio, low, high);
      assert x * ratio == s.rttThreshold;
      Undoes(x, ratio, low);
      if x < s.minimumRTTFactor { MultiplyOrdered(x, s.minimumRTTFactor, high); }
    }
  }

  lemma RatioPositive(ratio: real, low: real, high: real)
    requires low > 0.0 && high > 0.0 && ratio * low == high
    ensures ratio > 0.0
  {
    if ratio <= 0.0 { MultiplyOrdered(ratio, 0.0, low); }
  }

  lemma Undoes(x: real, ratio: real, low: real)
    ensures x * (ratio * low) == (x * ratio) * low
  {
  }

  lemma StrictlyOrdered(a: real, b: real, f: real)
    requires a < b && f > 0.0
    ensures a * f < b * f
  {
  }

  /** The loss factor is one up to the threshold; beyond it the factor gives up the weighted excess, but not below
      its floor. */
  lemma LossFactorIsExact(s: Settings, lossRatio: real)
    ensures var f, excess := LossFactor(s, lossRatio), (lossRatio - s.lossThreshold) * s.lossSensitivity;
            && (lossRatio <= s.lossThreshold ==> f == 1.0)
            && (lossRatio > s.lossThreshold ==>
                  f >= s.minimumLossFactor && f + excess >= 1.0 && (f == s.minimumLossFactor || f + excess == 1.0))
  {
  }

  /** More delay never raises the target. */
  lemma DelayNeverRaises(s: Settings, bottleneck: real, lossRatio: real, minimumRTT: int, less: int, more: int)
    requires Sane(s) && bottleneck >= 0.0 && 0 < minimumRTT && 0 < less <= more
    ensures Target(s, bottleneck, lossRatio, minimumRTT, more) <= Target(s, bottleneck, lossRatio, minimumRTT, less)
  {
    RttFactorFalls(s, minimumRTT, less, more);
    var f, g := RttFactor(s, minimumRTT, more), RttFactor(s, minimumRTT, less);
    DelayedWithin(s, bottleneck, g, f);
    MultiplyOrdered(Delayed(s, bottleneck, f), Delayed(s, bottleneck, g), LossFactor(s, lossRatio));
  }

  lemma RttFactorFalls(s: Settings, minimumRTT: int, less: int, more: int)
    requires Sane(s) && 0 < minimumRTT && 0 < less <= more
    ensures RttFactor(s, minimumRTT, more) <= RttFactor(s, minimumRTT, less)
  {
    RttFactorIsExact(s, minimumRTT, more);
    RttFactorIsExact(s, minimumRTT, less);
    FactorsFall(RttFactor(s, minimumRTT, more), RttFactor(s, minimumRTT, less), s.minimumRTTFactor,
                s.rttThreshold * minimumRTT as real, less as real, more as real);
  }

  lemma FactorsFall(f: real, g: real, floor: real, allowed: real, less: real, more: real)
    requires 0.0 <= floor <= g && f <= 1.0 && 0.0 < less <= more
    requires less <= allowed ==> g == 1.0
    requires less > allowed ==> g * less >= allowed
    requires more > allowed ==> f == floor || f * more == allowed
    ensures f <= g
  {
    if f > g && less > allowed {
      StrictlyOrdered(g, f, less);
      MultiplyOrdered(less, more, f);
    }
  }

  /** A sample above the estimate becomes the estimate, even under pacing. */
  lemma HigherSampleIsLearned(initialRate: real, history: seq<real>, deliveredRate: real, pacingLimited: bool)
    requires deliveredRate > Estimate(initialRate, history) && deliveredRate >= 0.0
    ensures var grown := Accept(initialRate, history, deliveredRate, pacingLimited);
            grown == history + [deliveredRate] && Estimate(initialRate, grown) == deliveredRate
  {
    var grown := history + [deliveredRate];
    var recent := Recent(grown);
    assert recent[|recent| - 1] == deliveredRate;
    if history != [] {
      forall x <- recent ensures x <= deliveredRate {
        var i :| 0 <= i < |recent| && recent[i] == x;
        if i < |recent| - 1 {
          var past := Recent(history);
          assert x == past[|past| - (|recent| - 1) + i];
        }
      }
    }
    assert MaxOf(recent) in recent && deliveredRate in recent;
  }

  /** An unlimited sample is always taken. */
  lemma UnlimitedSampleIsTaken(initialRate: real, history: seq<real>, deliveredRate: real)
    requires deliveredRate >= 0.0
    ensures var grown := Accept(initialRate, history, deliveredRate, false);
            grown == history + [deliveredRate] && Estimate(initialRate, grown) >= deliveredRate
  {
    var recent := Recent(history + [deliveredRate]);
    assert recent[|recent| - 1] == deliveredRate;
    assert deliveredRate in recent;
  }

  lemma QuotientBelowOne(a: real, b: real)
    requires 0.0 < a < b
    ensures 0.0 < a / b < 1.0
  {
    var q := a / b;
    assert q * b == a;
    if q >= 1.0 { MultiplyOrdered(1.0, q, b); }
    if q <= 0.0 { MultiplyOrdered(q, 0.0, b); }
  }

  lemma MultiplyOrdered(a: real, b: real, f: real)
    requires a <= b && f >= 0.0
    ensures a * f <= b * f
  {
  }

  // ---- the ring buffer ----

  class AdaptiveEstimator {
    const settings: Settings
    const initialRate: real
    const rates: array<real>
    var next: nat
    var count: nat
    ghost var history: seq<real>

    ghost predicate Valid()
      reads this, rates
    {
      && rates.Length == WINDOW
      && count == Min(|history|, WINDOW) && next == |history| % 8
      && (forall i :: 0 <= i < |history| ==> history[i] >= 0.0)
      && (forall i :: 0 <= i < |history| && |history| - WINDOW <= i ==> rates[i % 8] == history[i])
    }

    constructor (profile: Profile, initial: real)
      ensures Valid() && fresh(rates) && history == [] && settings == SettingsFor(profile) && initialRate == initial
    {
      settings := SettingsFor(profile);
      initialRate := initial;
      rates := new real[WINDOW](_ => 0.0);
      next, count, history := 0, 0, [];
    }

    method Reset()
      requires Valid()
      modifies this, rates
      ensures Valid() && history == []
    {
      for i := 0 to rates.Length
        invariant forall k :: 0 <= k < i ==> rates[k] == 0.0
      {
        rates[i] := 0.0;
      }
      next, count, history := 0, 0, [];
    }

    method BandwidthEstimate() returns (m: real)
      requires Valid()
      ensures m == Estimate(initialRate, history)
    {
      if count == 0 { return initialRate; }
      m := 0.0;
      var index := 0;
      ghost var best := 0;
      while index < count
        invariant 0 <= index <= count
        invariant m >= 0.0 && forall k :: 0 <= k < index ==> rates[k] <= m
        invariant index == 0 ==> m == 0.0
        invariant index > 0 ==> 0 <= best < index && rates[best] == m
      {
        CellIsRecent(index);
        if index == 0 || m < rates[index] { best := index; }
        m := if m < rates[index] then rates[index] else m;
        index := index + 1;
      }
      CellIsRecent(best);
      CellsCoverRecent(m);
    }

    /** Conversely every recent sample is in a used cell. */
    lemma CellsCoverRecent(m: real)
      requires Valid() && forall k :: 0 <= k < count ==> rates[k] <= m
      ensures forall x <- Recent(history) :: x <= m
    {
      var recent := Recent(history);
      forall j | 0 <= j < |recent| ensures recent[j] <= m {
        var i := |history| - |recent| + j;
        assert recent[j] == history[i] == rates[i % 8];
      }
    }

    /** Every used cell of the ring holds one of the recent samples. */
    lemma CellIsRecent(k: nat)
      requires Valid() && k < count
      ensures rates[k] in Recent(history) && rates[k] >= 0.0
    {
      var n := |history|;
      if n <= WINDOW {
        assert k % 8 == k && rates[k % 8] == history[k];
      } else {
        LastWithResidue(n, k);
        var i := n - 1 - (n - 1 - k) % 8;
        assert rates[i % 8] == history[i] == Recent(history)[i - (n - WINDOW)];
      }
    }

    method Observe(deliveredRate: real, lossRatio: real, minimumRTT: int, smoothedRTT: int, pacingLimited: bool)
      returns (target: real)
      requires Valid() && minimumRTT > 0 && smoothedRTT > 0
      modifies this, rates
      ensures Valid() && history == Accept(initialRate, old(history), deliveredRate, pacingLimited)
      ensures target == Target(settings, Estimate(initialRate, history), lossRatio, minimumRTT, smoothedRTT)
    {
      var delivered := MaxReal(0.0, deliveredRate);
      var bottleneck := BandwidthEstimate();
      if !pacingLimited || delivered > bottleneck {
        Push(delivered);
        bottleneck := BandwidthEstimate();
      }
      target := Target(settings, bottleneck, lossRatio, minimumRTT, smoothedRTT);
    }

    method Push(sample: real)
      requires Valid() && sample >= 0.0
      modifies this, rates
      ensures Valid() && history == old(history) + [sample]
    {
      ghost var n := |history|;
      forall i | 0 <= i < n && n + 1 - WINDOW <= i ensures i % 8 != n % 8 { ResiduesApart(n, i); }
      rates[next] := sample;
      next := (next + 1) % 8;
      if count < rates.Length { count := count + 1; }
      history := history + [sample];
    }
  }

  lemma ResiduesApart(n: nat, i: nat)
    requires i < n < i + WINDOW
    ensures i % 8 != n % 8
  {
  }

  lemma LastWithResidue(n: nat, k: nat)
    requires n > WINDOW && k < WINDOW
    ensures var i := n - 1 - (n - 1 - k) % 8; n - WINDOW <= i < n && i % 8 == k
  {
    var q := (n - 1 - k) / WINDOW;
    assert n - 1 - k == q * 8 + (n - 1 - k) % 8;
    assert n - 1 - (n - 1 - k) % 8 == k + q * 8;
  }
}
