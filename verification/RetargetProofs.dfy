/** What the retarget guarantees: waiting never makes mining harder, the step is bounded, and
    perfectly timed blocks leave the difficulty alone. */
module RetargetProofs {
  import opened Arith
  import opened CompactTarget
  import opened Primitives
  import opened Retarget

  /** Every target of the history is legal for the network. */
  ghost predicate HistoryWithinLimit(p: Params, hist: seq<Header>, lastBits: Bits) {
    && PowLimit(p) < Pow256(64)
    && Expand(lastBits) <= PowLimit(p)
    && forall h :: 0 <= h < |hist| ==> Expand(hist[h].bits) <= PowLimit(p)
  }

  // ---------------------------------------------------------------------------
  // Monotonicity
  // ---------------------------------------------------------------------------

  lemma ClampMono(a: int, b: int)
    requires a <= b
    ensures ClampSolvetime(a) <= ClampSolvetime(b)
  {
  }

  lemma EmaStepMono(ema: nat, a: nat, b: nat, window: nat)
    requires 0 < window && a <= b
    ensures EmaStep(ema, a, window) <= EmaStep(ema, b, window)
  {
    DivMono(Product(window - 1, ema) + 2 * a * EMA_SCALE, Product(window - 1, ema) + 2 * b * EMA_SCALE, window + 1);
  }

  lemma CombinedTargetMono(p: Params, hist: seq<Header>, window: nat, last: nat, a: nat, b: nat)
    requires 0 < window < |hist| && a <= b
    ensures CombinedTarget(p, hist, window, last, a) <= CombinedTarget(p, hist, window, last, b)
  {
    hide EmaStep, Scale, LwmaTarget, EmaUpTo, LwmaUpTo, Quotient, PowLimit;
    var w := EmaWindow(p, |hist| - 1);
    EmaStepMono(EmaUpTo(hist, w, w), a, b, w);
    ScaleMono(last, last, EmaStep(EmaUpTo(hist, w, w), a, w), EmaStep(EmaUpTo(hist, w, w), b, w),
              BLOCK_TIME_SECONDS * EMA_SCALE);
    ScaleMono(last, last, a, b, BLOCK_TIME_SECONDS);
  }

  lemma {:induction false} StableBitsWithinLimit(p: Params, hist: seq<Header>, k: nat, fallback: Bits)
    requires k < |hist| && HistoryWithinLimit(p, hist, fallback)
    ensures Expand(LastNonEmergencyBits(p, hist, k, fallback)) <= PowLimit(p)
  {
    hide Expand, Pow256;
    if k != 0 {
      StableBitsWithinLimit(p, hist, k - 1, fallback);
    }
  }

  lemma EncodedWithinLimit(p: Params, t: nat)
    requires PowLimit(p) < Pow256(64) && t <= PowLimit(p)
    ensures Expand(FromTarget(t)) <= PowLimit(p)
  {
    hide *;
    CompactRounding(t, t);
  }

  lemma CombinedWithinLimit(p: Params, hist: seq<Header>, window: nat, last: nat, gap: nat)
    requires 0 < window < |hist|
    ensures CombinedTarget(p, hist, window, last, gap) <= PowLimit(p)
  {
    hide EmaTarget, Scale, LwmaTarget, LwmaUpTo, Quotient, PowLimit;
  }

  /** The retarget never asks for a target above the proof-of-work limit. */
  lemma NextWorkWithinLimit(p: Params, hist: seq<Header>, lastBits: Bits, timestamp: Uint32)
    requires hist != [] && HistoryWithinLimit(p, hist, lastBits)
    ensures Expand(NextWork(p, hist, lastBits, timestamp)) <= PowLimit(p)
  {
    hide Expand, Pow256, FromTarget, CombinedTarget, LastNonEmergencyBits, LateEnough, ClampSolvetime;
    StableBitsWithinLimit(p, hist, |hist| - 1, lastBits);
    if 6 <= Window(hist) {
      var last := hist[|hist| - 1];
      var gap := ClampSolvetime(EffectiveTimestamp(last, timestamp) - last.timestamp);
      CombinedWithinLimit(p, hist, Window(hist), Expand(lastBits), gap);
      EncodedWithinLimit(p, CombinedTarget(p, hist, Window(hist), Expand(lastBits), gap));
    }
  }

  /** Main result: for a fixed history a later timestamp never gives a harder target, on every branch
      and even where the 32-bit deadlines wrap. */
  lemma WaitingNeverHarder(p: Params, hist: seq<Header>, lastBits: Bits, t1: Uint32, t2: Uint32)
    requires hist != [] && HistoryWithinLimit(p, hist, lastBits)
    requires t1 <= t2
    ensures Expand(NextWork(p, hist, lastBits, t1)) <= Expand(NextWork(p, hist, lastBits, t2))
  {
    hide Expand, Pow256, FromTarget, CombinedTarget, LastNonEmergencyBits, ClampSolvetime, IsEmergencyBlock;
    NextWorkWithinLimit(p, hist, lastBits, t1);
    if 6 <= Window(hist) {
      var last := hist[|hist| - 1];
      var g1 := EffectiveTimestamp(last, t1) - last.timestamp;
      var g2 := EffectiveTimestamp(last, t2) - last.timestamp;
      ClampMono(g1, g2);
      CombinedTargetMono(p, hist, Window(hist), Expand(lastBits), ClampSolvetime(g1), ClampSolvetime(g2));
      CombinedWithinLimit(p, hist, Window(hist), Expand(lastBits), ClampSolvetime(g2));
      CompactRounding(CombinedTarget(p, hist, Window(hist), Expand(lastBits), ClampSolvetime(g1)),
                      CombinedTarget(p, hist, Window(hist), Expand(lastBits), ClampSolvetime(g2)));
    }
  }

  // ---------------------------------------------------------------------------
  // Bounds
  // ---------------------------------------------------------------------------

  /** The target that the k-th block of the window counts with: its own, or for an emergency block the last one
      before it that is not an emergency block's. */
  function SampleAt(p: Params, hist: seq<Header>, window: nat, k: nat): nat
    requires 0 < k <= window < |hist|
  {
    LwmaUpTo(p, hist, window, k).stable
  }

  /** Every target that is averaged lies in [lo, hi]. */
  ghost predicate SampledWithin(p: Params, hist: seq<Header>, window: nat, lo: nat, hi: nat)
    requires window < |hist|
  {
    forall k :: 0 < k <= window ==> lo <= SampleAt(p, hist, window, k) <= hi
  }

  /** For that it is enough to look at the block before the window and at those in it that are no emergency
      blocks; what an emergency block claims does not matter. */
  ghost predicate StableWithin(p: Params, hist: seq<Header>, window: nat, lo: nat, hi: nat)
    requires window < |hist|
  {
    && lo <= Expand(hist[|hist| - 1 - window].bits) <= hi
    && forall h :: |hist| - window <= h < |hist| && !IsEmergencyBlock(p, hist[h - 1], hist[h]) ==> lo <= Expand(hist[h].bits) <= hi
  }

  lemma {:induction false} StableSamples(p: Params, hist: seq<Header>, window: nat, lo: nat, hi: nat, k: nat)
    requires k <= window < |hist| && StableWithin(p, hist, window, lo, hi)
    ensures lo <= LwmaUpTo(p, hist, window, k).stable <= hi
  {
    hide Expand, IsEmergencyBlock, LwmaUpTo;
    LwmaUnfold(p, hist, window, k);
    if k != 0 {
      StableSamples(p, hist, window, lo, hi, k - 1);
    }
  }

  /** A sample is the target of the block itself unless that is an emergency block. */
  lemma SampleIs(p: Params, hist: seq<Header>, window: nat, k: nat)
    requires 0 < k <= window < |hist|
    ensures var h := |hist| - 1 - window + k;
            SampleAt(p, hist, window, k)
            == if !IsEmergencyBlock(p, hist[h - 1], hist[h]) then Expand(hist[h].bits)
               else if k == 1 then Expand(hist[h - 1].bits) else SampleAt(p, hist, window, k - 1)
  {
    hide Expand, IsEmergencyBlock, LwmaUpTo;
    LwmaUnfold(p, hist, window, k);
    LwmaUnfold(p, hist, window, k - 1);
  }

  lemma SumStep(sum: nat, sample: nat, total: nat, weight: nat, lo: nat, hi: nat)
    requires Product(lo, total) <= sum <= Product(hi, total) && lo <= sample <= hi
    ensures Product(lo, total + weight) <= sum + Product(sample, weight) <= Product(hi, total + weight)
  {
    MulMono(lo, sample, weight);
    MulMono(sample, hi, weight);
    assert lo * (total + weight) == lo * total + lo * weight;
    assert hi * (total + weight) == hi * total + hi * weight;
  }

  /** Weighted sums stay between the extreme samples times the weight. */
  lemma {:induction false} LwmaSums(p: Params, hist: seq<Header>, window: nat, k: nat, lo: nat, hi: nat)
    requires k <= window < |hist| && SampledWithin(p, hist, window, lo, hi)
    ensures var sums := LwmaUpTo(p, hist, window, k);
            && Product(lo, sums.weight) <= sums.targets <= Product(hi, sums.weight)
            && Product(MIN_SOLVETIME, sums.weight) <= sums.solvetime <= Product(MAX_SOLVETIME, sums.weight)
  {
    hide Expand, IsEmergencyBlock, Pow256, LwmaUpTo, Product;
    LwmaUnfold(p, hist, window, k);
    if k == 0 {
      ProductZero(lo);
      ProductZero(hi);
      ProductZero(MIN_SOLVETIME);
      ProductZero(MAX_SOLVETIME);
    } else {
      LwmaSums(p, hist, window, k - 1, lo, hi);
      var sums := LwmaUpTo(p, hist, window, k - 1);
      var previous, current := hist[|hist| - 2 - window + k], hist[|hist| - 1 - window + k];
      assert SampleTarget(p, previous, current, sums.stable) == SampleAt(p, hist, window, k);
      SumStep(sums.targets, SampleTarget(p, previous, current, sums.stable), sums.weight, k, lo, hi);
      SumStep(sums.solvetime, SampleSolvetime(p, previous, current), sums.weight, k, MIN_SOLVETIME, MAX_SOLVETIME);
    }
  }

  lemma ProductAdd(a: nat, x: nat, y: nat)
    ensures Product(a, x + y) == Product(a, x) + Product(a, y)
  {
  }

  lemma ProductZero(a: nat)
    ensures Product(a, 0) == 0
  {
  }

  lemma LwmaUnfold(p: Params, hist: seq<Header>, window: nat, k: nat)
    requires k <= window < |hist|
    ensures k == 0 ==> LwmaUpTo(p, hist, window, k) == Lwma(0, 0, 0, Expand(hist[|hist| - 1 - window].bits))
    ensures 0 < k ==> (
              LwmaUpTo(p, hist, window, k) ==
              LwmaStep(p, hist[|hist| - 2 - window + k], hist[|hist| - 1 - window + k],
                       LwmaUpTo(p, hist, window, k - 1), k))
  {
  }

  function Average(p: Params, hist: seq<Header>): nat
    requires hist != [] && 6 <= Window(hist)
  {
    WeightPositive(p, hist, Window(hist));
    var sums := LwmaUpTo(p, hist, Window(hist), Window(hist));
    Quotient(sums.targets, sums.weight)
  }

  /** Main result: the average target lies between the smallest and the largest target that is averaged. */
  lemma AverageBetweenSamples(p: Params, hist: seq<Header>, lo: nat, hi: nat)
    requires hist != [] && 6 <= Window(hist) && SampledWithin(p, hist, Window(hist), lo, hi)
    ensures lo <= Average(p, hist) <= hi
  {
    hide Expand, LwmaUpTo;
    LwmaSums(p, hist, Window(hist), Window(hist), lo, hi);
    WeightPositive(p, hist, Window(hist));
    var sums := LwmaUpTo(p, hist, Window(hist), Window(hist));
    DivAtLeast(sums.targets, sums.weight, lo);
    assert (hi + 1) * sums.weight == hi * sums.weight + sums.weight;
    DivAtMost(sums.targets, sums.weight, hi);
  }

  lemma LwmaTargetBounds(average: nat, solvetime: nat, weight: nat)
    requires 0 < weight
    ensures average / 2 <= LwmaTarget(average, solvetime, weight) <= 2 * average
  {
    hide Scale;
  }

  /** One step of the moving average stays between its inputs' extremes. */
  lemma EmaStepAtMost(ema: nat, sample: nat, window: nat, cap: nat)
    requires 0 < window && ema <= cap * EMA_SCALE && sample <= cap
    ensures EmaStep(ema, sample, window) <= cap * EMA_SCALE
  {
    MulMono(ema, cap * EMA_SCALE, window - 1);
    var top := cap * EMA_SCALE;
    assert (window - 1) * top + 2 * top == (window + 1) * top == top * (window + 1);
    DivMono(Product(window - 1, ema) + 2 * sample * EMA_SCALE, top * (window + 1), window + 1);
    DivOfMul(top, window + 1);
  }

  lemma {:induction false} EmaAtMost(hist: seq<Header>, window: nat, k: nat)
    requires k <= window < |hist| && 0 < window
    ensures EmaUpTo(hist, window, k) <= MAX_SOLVETIME * EMA_SCALE
  {
    hide EmaStep;
    if k != 0 {
      EmaAtMost(hist, window, k - 1);
      var height := |hist| - 1 - window + k;
      EmaStepAtMost(EmaUpTo(hist, window, k - 1),
                    ClampSolvetime(hist[height].timestamp - hist[height - 1].timestamp), window, MAX_SOLVETIME);
    }
  }

  lemma EmaTargetAtMost(p: Params, hist: seq<Header>, last: nat, gap: nat)
    requires 1 < |hist| && gap <= MAX_SOLVETIME
    ensures EmaTarget(p, hist, last, gap) <= 6 * last
  {
    hide EmaStep, EmaUpTo, Scale;
    var window := EmaWindow(p, |hist| - 1);
    EmaAtMost(hist, window, window);
    EmaStepAtMost(EmaUpTo(hist, window, window), gap, window, MAX_SOLVETIME);
    ScaleAtMost(last, EmaStep(EmaUpTo(hist, window, window), gap, window), BLOCK_TIME_SECONDS * EMA_SCALE, 6);
  }

  lemma CombinedTargetBounds(p: Params, hist: seq<Header>, last: nat, gap: nat)
    requires hist != [] && 6 <= Window(hist) && gap <= MAX_SOLVETIME
    ensures var average, t := Average(p, hist), CombinedTarget(p, hist, Window(hist), last, gap);
            && Min(average / 2, PowLimit(p)) <= t
            && t <= Min(Max(2 * average, 6 * last), PowLimit(p))
  {
    hide EmaTarget, Scale, LwmaTarget, LwmaUpTo, Quotient, PowLimit;
    WeightPositive(p, hist, Window(hist));
    var sums := LwmaUpTo(p, hist, Window(hist), Window(hist));
    LwmaTargetBounds(Average(p, hist), sums.solvetime, sums.weight);
    EmaTargetAtMost(p, hist, last, gap);
    ScaleAtMost(last, gap, BLOCK_TIME_SECONDS, 6);
  }

  /** The timestamp takes the full averaging path: enough history, no emergency, no late block. */
  predicate AveragingPath(p: Params, hist: seq<Header>, timestamp: Uint32) {
    && hist != [] && 6 <= Window(hist) && !p.fixedDifficulty
    && !LateEnough(p, hist[|hist| - 1], EffectiveTimestamp(hist[|hist| - 1], timestamp))
    && !LastWasEmergency(p, hist)
  }

  /** Main result: on the averaging path the new bits are canonical and non-zero, and the new target
      lies between half the average (rounded) and the larger of twice the average and six times the
      last target, never above the limit. */
  lemma RetargetBounds(p: Params, hist: seq<Header>, lastBits: Bits, timestamp: Uint32)
    requires AveragingPath(p, hist, timestamp) && HistoryWithinLimit(p, hist, lastBits)
    requires StableWithin(p, hist, Window(hist), 2, PowLimit(p))
    ensures var bits, average := NextWork(p, hist, lastBits, timestamp), Average(p, hist);
            && IsCanonical(bits, 64) && !IsZero(bits)
            && 2 <= average <= PowLimit(p)
            && Expand(FromTarget(average / 2)) <= Expand(bits)
            && Expand(bits) <= Min(PowLimit(p), Max(2 * average, 6 * Expand(lastBits)))
  {
    hide Expand, Pow256, FromTarget, CombinedTarget, LateEnough, LastNonEmergencyBits, Average, PowLimit, Overflows, IsZero, StableWithin;
    var last := hist[|hist| - 1];
    var gap := ClampSolvetime(EffectiveTimestamp(last, timestamp) - last.timestamp);
    forall k | 0 < k <= Window(hist)
      ensures 2 <= SampleAt(p, hist, Window(hist), k) <= PowLimit(p)
    {
      StableSamples(p, hist, Window(hist), 2, PowLimit(p), k);
    }
    AverageBetweenSamples(p, hist, 2, PowLimit(p));
    CombinedTargetBounds(p, hist, Expand(lastBits), gap);
    var t := CombinedTarget(p, hist, Window(hist), Expand(lastBits), gap);
    CompactRounding(Average(p, hist) / 2, t);
    FromTargetFits(t);
  }

  // ---------------------------------------------------------------------------
  // The fixed point
  // ---------------------------------------------------------------------------

  /** Constant bits and blocks exactly ten minutes apart. */
  ghost predicate PerfectlyTimed(p: Params, hist: seq<Header>, bits: Bits) {
    && hist != []
    && (forall h :: 0 <= h < |hist| ==> hist[h].bits == bits)
    && (forall h :: 0 < h < |hist| ==> hist[h].timestamp == hist[h - 1].timestamp + BLOCK_TIME_SECONDS)
    && (p.emergencyDelay == 0 || BLOCK_TIME_SECONDS < p.emergencyDelay)
    && hist[|hist| - 1].timestamp + Max(p.emergencyDelay, 2 * BLOCK_TIME_SECONDS) < 0x1_0000_0000
  }

  lemma NoEmergencyWhenTimed(p: Params, hist: seq<Header>, bits: Bits, h: nat)
    requires PerfectlyTimed(p, hist, bits) && 0 < h < |hist|
    ensures !IsEmergencyBlock(p, hist[h - 1], hist[h])
  {
    TimestampsRise(p, hist, bits, h);
  }

  lemma {:induction false} TimestampsRise(p: Params, hist: seq<Header>, bits: Bits, h: nat)
    requires PerfectlyTimed(p, hist, bits) && h < |hist|
    ensures hist[h].timestamp <= hist[|hist| - 1].timestamp
    decreases |hist| - h
  {
    if h < |hist| - 1 {
      TimestampsRise(p, hist, bits, h + 1);
    }
  }

  lemma {:induction false} LwmaTimed(p: Params, hist: seq<Header>, bits: Bits, window: nat, k: nat)
    requires PerfectlyTimed(p, hist, bits) && k <= window < |hist|
    ensures var sums := LwmaUpTo(p, hist, window, k);
            && sums.stable == Expand(bits)
            && sums.targets == Product(Expand(bits), sums.weight)
            && sums.solvetime == Product(BLOCK_TIME_SECONDS, sums.weight)
  {
    hide Expand, Pow256, LwmaUpTo, IsEmergencyBlock, Product;
    LwmaUnfold(p, hist, window, k);
    if k == 0 {
      ProductZero(Expand(bits));
      ProductZero(BLOCK_TIME_SECONDS);
    } else {
      LwmaTimed(p, hist, bits, window, k - 1);
      NoEmergencyWhenTimed(p, hist, bits, |hist| - 1 - window + k);
      var weight := LwmaUpTo(p, hist, window, k - 1).weight;
      ProductAdd(Expand(bits), weight, k);
      ProductAdd(BLOCK_TIME_SECONDS, weight, k);
    }
  }

  lemma {:induction false} EmaTimed(p: Params, hist: seq<Header>, bits: Bits, window: nat, k: nat)
    requires PerfectlyTimed(p, hist, bits) && k <= window < |hist| && 0 < window
    ensures EmaUpTo(hist, window, k) <= BLOCK_TIME_SECONDS * EMA_SCALE
  {
    hide EmaStep;
    if k != 0 {
      EmaTimed(p, hist, bits, window, k - 1);
      EmaStepAtMost(EmaUpTo(hist, window, k - 1), BLOCK_TIME_SECONDS, window, BLOCK_TIME_SECONDS);
    }
  }

  lemma CombinedTimed(p: Params, hist: seq<Header>, bits: Bits, window: nat, gap: nat)
    requires PerfectlyTimed(p, hist, bits) && 0 < window < |hist|
    requires gap <= BLOCK_TIME_SECONDS && Expand(bits) <= PowLimit(p)
    ensures CombinedTarget(p, hist, window, Expand(bits), gap) == Expand(bits)
  {
    hide Expand, Pow256, EmaStep, EmaUpTo, LwmaUpTo, PowLimit, PerfectlyTimed;
    var target := Expand(bits);
    LwmaTimed(p, hist, bits, window, window);
    WeightPositive(p, hist, window);
    var weight := LwmaUpTo(p, hist, window, window).weight;
    DivOfMul(target, weight);
    ScaleSame(target, BLOCK_TIME_SECONDS * weight);
    assert LwmaTarget(target, BLOCK_TIME_SECONDS * weight, weight) == target by { hide Scale; }
    var w := EmaWindow(p, |hist| - 1);
    EmaTimed(p, hist, bits, w, w);
    EmaStepAtMost(EmaUpTo(hist, w, w), gap, w, BLOCK_TIME_SECONDS);
    hide Scale, LwmaTarget;
    ScaleAtMost(target, EmaStep(EmaUpTo(hist, w, w), gap, w), BLOCK_TIME_SECONDS * EMA_SCALE, 1);
  }

  /** Main result: perfectly timed history keeps its bits for every candidate at most ten minutes later. */
  lemma SteadyStateIsFixed(p: Params, hist: seq<Header>, bits: Bits, timestamp: Uint32)
    requires PerfectlyTimed(p, hist, bits) && !p.fixedDifficulty
    requires IsCanonical(bits, 64) && Expand(bits) <= PowLimit(p)
    requires timestamp <= hist[|hist| - 1].timestamp + BLOCK_TIME_SECONDS
    ensures NextWork(p, hist, bits, timestamp) == bits
  {
    hide Expand, Pow256, FromTarget, CombinedTarget, LastNonEmergencyBits, Overflows, IsZero, IsCanonical, PowLimit;
    CanonicalRoundTrip(bits);
    if 1 < |hist| {
      NoEmergencyWhenTimed(p, hist, bits, |hist| - 1);
    }
    if 6 <= Window(hist) {
      var last := hist[|hist| - 1];
      CombinedTimed(p, hist, bits, Window(hist), ClampSolvetime(EffectiveTimestamp(last, timestamp) - last.timestamp));
    }
  }
}
