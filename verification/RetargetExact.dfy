/** What the averages of the retarget are: how blocks are weighted, how far the damping goes, and how fast the
    exponential average follows. */
module RetargetExact {
  import opened Arith
  import opened CompactTarget
  import opened Primitives
  import opened Retarget
  import opened RetargetProofs
  import opened Radix

  // ---------------------------------------------------------------------------
  // Linear weights
  // ---------------------------------------------------------------------------

  function Total(v: seq<nat>): nat {
    if v == [] then 0 else Total(v[..|v| - 1]) + v[|v| - 1]
  }

  /** The totals of all ends of the list, added up. */
  function EndTotals(v: seq<nat>): nat {
    if v == [] then 0 else Total(v) + EndTotals(v[1..])
  }

  lemma {:induction false} TotalSnoc(v: seq<nat>, x: nat)
    ensures Total(v + [x]) == Total(v) + x
  {
    assert (v + [x])[..|v|] == v;
  }

  /** One more sample counts once for every end, its own included. */
  lemma {:induction false} EndTotalsSnoc(v: seq<nat>, x: nat)
    ensures EndTotals(v + [x]) == EndTotals(v) + Product(x, |v| + 1)
    decreases |v|
  {
    hide Product;
    TotalSnoc(v, x);
    if v == [] {
      assert (v + [x])[1..] == [] && Product(x, 1) == x by { Times(x, 1); }
    } else {
      assert (v + [x])[1..] == v[1..] + [x];
      EndTotalsSnoc(v[1..], x);
      Times(x, |v|);
    }
  }

  lemma Times(x: nat, n: nat)
    ensures Product(x, n + 1) == Product(x, n) + x && Product(x, 1) == x
  {
  }

  function Solvetimes(p: Params, hist: seq<Header>, window: nat, k: nat): (v: seq<nat>)
    requires k <= window < |hist|
    ensures |v| == k
  {
    seq<nat>(k, i requires 0 <= i < k => SampleSolvetime(p, hist[|hist| - 1 - window + i], hist[|hist| - window + i]))
  }

  function Targets(p: Params, hist: seq<Header>, window: nat, k: nat): (v: seq<nat>)
    requires k <= window < |hist|
    ensures |v| == k
  {
    seq<nat>(k, i requires 0 <= i < k => SampleAt(p, hist, window, i + 1))
  }

  /** Main result: the weights rise linearly towards the newest block. The sum of the solve times is what the last
      block took, plus what the last two took, and so on through the window; the same for the targets; and the weights
      add up to a triangular number. */
  lemma {:induction false} WeightsRise(p: Params, hist: seq<Header>, window: nat, k: nat)
    requires k <= window < |hist|
    ensures var sums := LwmaUpTo(p, hist, window, k);
            && sums.solvetime == EndTotals(Solvetimes(p, hist, window, k))
            && sums.targets == EndTotals(Targets(p, hist, window, k))
            && 2 * sums.weight == k * (k + 1)
  {
    hide Expand, IsEmergencyBlock, LwmaUpTo, Product, SampleSolvetime, Total, EndTotals;
    LwmaUnfold(p, hist, window, k);
    NoEnds();
    if k != 0 {
      WeightsRise(p, hist, window, k - 1);
      var t, s := Targets(p, hist, window, k - 1), Solvetimes(p, hist, window, k - 1);
      EndTotalsSnoc(s, SampleSolvetime(p, hist[|hist| - 2 - window + k], hist[|hist| - 1 - window + k]));
      EndTotalsSnoc(t, SampleAt(p, hist, window, k));
      assert Solvetimes(p, hist, window, k) == s + [SampleSolvetime(p, hist[|hist| - 2 - window + k], hist[|hist| - 1 - window + k])];
      assert Targets(p, hist, window, k) == t + [SampleAt(p, hist, window, k)];
      Triangular(k);
    } else {
      assert Solvetimes(p, hist, window, 0) == [] && Targets(p, hist, window, 0) == [];
    }
  }

  lemma NoEnds()
    ensures EndTotals([]) == 0
  {
  }

  lemma Triangular(k: nat)
    requires 0 < k
    ensures k * (k + 1) == (k - 1) * k + 2 * k
  {
  }

  // ---------------------------------------------------------------------------
  // Damping
  // ---------------------------------------------------------------------------

  /** Rounding down loses less than one. */
  lemma ScaleBounds(a: nat, num: nat, den: nat)
    requires 0 < den
    ensures Product(Scale(a, num, den), den) <= Product(a, num) < Product(Scale(a, num, den), den) + den
  {
    DivMod(Product(a, num), den);
  }

  /** Main result: short of the factor of two, the target moves a quarter of the way from the average to the average
      scaled by the mean solve time, rounded down once; from five times the block time on it is doubled. */
  lemma DampedExactly(average: nat, solvetime: nat, weight: nat)
    requires 0 < weight && 100 * weight <= solvetime
    ensures var t, exact := LwmaTarget(average, solvetime, weight), Product(average, solvetime + 1800 * weight);
            if solvetime <= 3000 * weight then t == Quotient(exact, 2400 * weight) else t == 2 * average
    ensures 19 * average <= 24 * LwmaTarget(average, solvetime, weight) + 23
  {
    hide Product, Scale;
    var d, n, raw := 600 * weight, Product(average, solvetime), Scale(average, solvetime, 600 * weight);
    ScaleBounds(average, solvetime, d);
    RawBounds(average, solvetime, weight, raw);
    var damped := (raw + 3 * average) / 4;
    if solvetime <= 3000 * weight {
      DampedAlgebra(average, solvetime, weight, raw, damped);
      Floor(Product(average, solvetime + 1800 * weight), 2400 * weight, damped);
    }
  }

  lemma Floor(a: nat, d: nat, q: nat)
    requires 0 < d && a - d < Product(q, d) <= a
    ensures Quotient(a, d) == q
  {
    DivUnique(a, d, q, a - q * d);
  }

  lemma RawBounds(average: nat, solvetime: nat, weight: nat, raw: nat)
    requires 0 < weight && 100 * weight <= solvetime
    requires Product(raw, 600 * weight) <= Product(average, solvetime) < Product(raw, 600 * weight) + 600 * weight
    ensures average <= 6 * raw + 5
    ensures solvetime <= 3000 * weight ==> raw <= 5 * average
    ensures 3000 * weight <= solvetime ==> 5 * average <= raw
  {
    MulMono(100 * weight, solvetime, average);
    assert average * (100 * weight) == average * 100 * weight;
    assert (raw + 1) * (600 * weight) == Product(raw, 600 * weight) + 600 * weight;
    assert 6 * (raw + 1) * (100 * weight) == (raw + 1) * (600 * weight);
    MulLess(average, 6 * (raw + 1), 100 * weight);
    if solvetime <= 3000 * weight {
      MulMono(solvetime, 3000 * weight, average);
      assert 5 * average * (600 * weight) == average * (3000 * weight);
      if 5 * average < raw {
        MulStrictMono(5 * average, raw, 600 * weight);
      }
    }
    if 3000 * weight <= solvetime {
      MulMono(3000 * weight, solvetime, average);
      assert 5 * average * (600 * weight) == average * (3000 * weight);
      MulLess(5 * average, raw + 1, 600 * weight);
    }
  }

  lemma DampedAlgebra(average: nat, solvetime: nat, weight: nat, raw: nat, damped: nat)
    requires Product(raw, 600 * weight) <= Product(average, solvetime) < Product(raw, 600 * weight) + 600 * weight
    requires 4 * damped <= raw + 3 * average <= 4 * damped + 3
    ensures Product(average, solvetime + 1800 * weight) - 2400 * weight < Product(damped, 2400 * weight)
    ensures Product(damped, 2400 * weight) <= Product(average, solvetime + 1800 * weight)
  {
    var d := 600 * weight;
    assert average * (solvetime + 1800 * weight) == Product(average, solvetime) + 3 * average * d;
    assert damped * (2400 * weight) == 4 * damped * d;
    MulMono(4 * damped, raw + 3 * average, d);
    MulMono(raw + 3 * average, 4 * damped + 3, d);
    assert (raw + 3 * average) * d == Product(raw, d) + 3 * average * d;
    assert (4 * damped + 3) * d == 4 * damped * d + 3 * d;
  }

  // ---------------------------------------------------------------------------
  // The exponential average
  // ---------------------------------------------------------------------------

  /** A new gap counts two parts in window + 1, the average so far the rest. */
  lemma EmaStepExact(ema: nat, gap: nat, window: nat)
    requires 0 < window
    ensures var next := EmaStep(ema, gap, window);
            Product(next, window + 1) <= Product(window - 1, ema) + 2 * (1024 * gap) < Product(next, window + 1) + window + 1
  {
    hide Product;
    DivMod(Product(window - 1, ema) + 2 * gap * EMA_SCALE, window + 1);
  }

  /** The average stays within the range of the gaps, if that includes the block time it starts from. */
  lemma {:induction false} EmaWithin(hist: seq<Header>, window: nat, k: nat, lo: nat, hi: nat)
    requires k <= window < |hist| && 0 < window && lo <= 600 <= hi
    requires forall h :: |hist| - window <= h < |hist| ==> lo <= ClampSolvetime(hist[h].timestamp - hist[h - 1].timestamp) <= hi
    ensures 1024 * lo <= EmaUpTo(hist, window, k) <= 1024 * hi
  {
    hide ClampSolvetime, EmaStep;
    if k != 0 {
      EmaWithin(hist, window, k - 1, lo, hi);
      var h := |hist| - 1 - window + k;
      EmaStepWithin(EmaUpTo(hist, window, k - 1), ClampSolvetime(hist[h].timestamp - hist[h - 1].timestamp), window, lo, hi);
    }
  }

  lemma EmaStepWithin(ema: nat, gap: nat, window: nat, lo: nat, hi: nat)
    requires 0 < window && lo <= gap <= hi && 1024 * lo <= ema <= 1024 * hi
    ensures 1024 * lo <= EmaStep(ema, gap, window) <= 1024 * hi
  {
    hide EmaStep, Product;
    EmaStepExact(ema, gap, window);
    StepAbove(ema, gap, window - 1, EmaStep(ema, gap, window), lo);
    StepBelow(ema, gap, window - 1, EmaStep(ema, gap, window), hi);
  }

  lemma StepAbove(ema: nat, gap: nat, c: nat, next: nat, lo: nat)
    requires lo <= gap && 1024 * lo <= ema && Product(c, ema) + 2 * (1024 * gap) < Product(next, c + 2) + c + 2
    ensures 1024 * lo <= next
  {
    MulMono(1024 * lo, ema, c);
    SplitTimes(c, 1024 * lo);
    SplitTimes(c, next + 1);
    SplitTimes(c, next);
    MulLess(1024 * lo, next + 1, c + 2);
  }

  lemma StepBelow(ema: nat, gap: nat, c: nat, next: nat, hi: nat)
    requires gap <= hi && ema <= 1024 * hi && Product(next, c + 2) <= Product(c, ema) + 2 * (1024 * gap)
    ensures next <= 1024 * hi
  {
    MulMono(ema, 1024 * hi, c);
    SplitTimes(c, 1024 * hi);
    SplitTimes(c, next);
    if 1024 * hi < next {
      MulStrictMono(1024 * hi, next, c + 2);
    }
  }

  /** Main result: the estimate of the exponential average lies between the last target scaled by the shortest and by the
      longest gap, up to rounding. */
  lemma EmaTargetWithin(p: Params, hist: seq<Header>, last: nat, gap: nat, lo: nat, hi: nat)
    requires 1 < |hist| && lo <= 600 <= hi && lo <= gap <= hi
    requires forall h :: |hist| - EmaWindow(p, |hist| - 1) <= h < |hist| ==>
               lo <= ClampSolvetime(hist[h].timestamp - hist[h - 1].timestamp) <= hi
    ensures last * lo < 600 * (EmaTarget(p, hist, last, gap) + 1) && 600 * EmaTarget(p, hist, last, gap) <= last * hi
  {
    hide ClampSolvetime, EmaStep, EmaUpTo, Scale, Product;
    var window := EmaWindow(p, |hist| - 1);
    EmaWithin(hist, window, window, lo, hi);
    EmaStepWithin(EmaUpTo(hist, window, window), gap, window, lo, hi);
    var ema := EmaStep(EmaUpTo(hist, window, window), gap, window);
    ScaleBounds(last, ema, BLOCK_TIME_SECONDS * EMA_SCALE);
    ScaledWithin(last, ema, EmaTarget(p, hist, last, gap), lo, hi);
  }

  lemma ScaledWithin(last: nat, ema: nat, t: nat, lo: nat, hi: nat)
    requires 1024 * lo <= ema <= 1024 * hi
    requires Product(t, 600 * 1024) <= Product(last, ema) < Product(t, 600 * 1024) + 600 * 1024
    ensures last * lo < 600 * (t + 1) && 600 * t <= last * hi
  {
    MulMono(1024 * lo, ema, last);
    MulMono(ema, 1024 * hi, last);
    assert last * (1024 * lo) == 1024 * (last * lo);
    assert last * (1024 * hi) == 1024 * (last * hi);
  }

  /** Blocks that all took the same time. */
  ghost predicate EvenGaps(hist: seq<Header>, from: nat, gap: nat) {
    forall h :: 0 < from <= h < |hist| ==> ClampSolvetime(hist[h].timestamp - hist[h - 1].timestamp) == gap
  }

  /** Main result: over k equal gaps the distance of the average from the gap shrinks by (window - 1) / (window + 1) at
      each step, from where it starts; rounding adds up to at most half of window + 1 units. */
  lemma {:induction false} EmaOnEvenGaps(hist: seq<Header>, window: nat, k: nat, gap: nat)
    requires k <= window < |hist| && 0 < window && EvenGaps(hist, |hist| - window, gap)
    ensures var p, q, ema := Power(window + 1, k), Power(window - 1, k), EmaUpTo(hist, window, k);
            && p * ema <= p * (1024 * gap) + q * (1024 * 600 - 1024 * gap)
            && 2 * (p * (1024 * gap) + q * (1024 * 600 - 1024 * gap)) <= 2 * (p * ema) + (window + 1) * p
  {
    hide ClampSolvetime, EmaStep;
    if k != 0 {
      EmaOnEvenGaps(hist, window, k - 1, gap);
      var h := |hist| - 1 - window + k;
      assert ClampSolvetime(hist[h].timestamp - hist[h - 1].timestamp) == gap;
      var before := EmaUpTo(hist, window, k - 1);
      EmaStepExact(before, gap, window);
      EmaAlgebra(Power(window + 1, k - 1), Power(window - 1, k - 1), before, EmaStep(before, gap, window), 1024 * gap,
                 1024 * 600 - 1024 * gap, window);
      assert Power(window + 1, k) == Product(Power(window + 1, k - 1), window + 1);
      assert Power(window - 1, k) == Product(Power(window - 1, k - 1), window - 1);
    } else {
      assert Power(window + 1, 0) == 1 && Power(window - 1, 0) == 1;
    }
  }

  lemma EmaAlgebra(p: nat, q: nat, before: nat, next: nat, g: nat, start: int, w: nat)
    requires 0 < w && Product(next, w + 1) <= Product(w - 1, before) + 2 * g < Product(next, w + 1) + w + 1
    requires p * before <= p * g + q * start && 2 * (p * g + q * start) <= 2 * (p * before) + (w + 1) * p
    ensures var p', q' := Product(p, w + 1), Product(q, w - 1);
            p' * next <= p' * g + q' * start && 2 * (p' * g + q' * start) <= 2 * (p' * next) + (w + 1) * p'
  {
    var c, x, y, z := w - 1, p * before, p * g, q * start;
    var wp := (w + 1) * p;
    StepTimes(p, before, next, g, w);
    Rearranged(p, next, w + 1);
    Rearranged(p, g, w + 1);
    SplitTimes(c, y);
    Moved(q, c, start);
    SplitTimes(c, wp);
    Moved(p, w + 1, w + 1);
    WidthTimes(w, p);
    EmaBounds(c, x, y, z, p * Product(next, w + 1), w * p, wp);
  }

  lemma WidthTimes(w: nat, p: nat)
    ensures (w + 1) * p == w * p + p && (w + 1) * (p * (w + 1)) == (w + 1) * ((w + 1) * p)
  {
  }

  /** The same with the products as unknowns. */
  lemma EmaBounds(c: nat, x: int, y: int, z: int, grown: int, wp': int, wp: int)
    requires grown <= c * x + 2 * y <= grown + wp' && wp' <= wp
    requires x <= y + z && 2 * (y + z) <= 2 * x + wp
    ensures grown <= c * y + 2 * y + c * z
    ensures 2 * (c * y + 2 * y + c * z) <= 2 * grown + c * wp + 2 * wp
  {
    Upper(c, x, y + z);
    Upper(c, 2 * (y + z), 2 * x + wp);
    Distributed(c, y, z, x, wp);
  }

  /** The step of the average, p times. */
  lemma StepTimes(p: nat, before: nat, next: nat, g: nat, w: nat)
    requires 0 < w && Product(next, w + 1) <= Product(w - 1, before) + 2 * g < Product(next, w + 1) + w + 1
    ensures var grown := p * Product(next, w + 1);
            grown <= (w - 1) * (p * before) + 2 * (p * g) <= grown + w * p
  {
    var n, b := Product(next, w + 1), Product(w - 1, before);
    MulMono(n, b + 2 * g, p);
    MulMono(b + 2 * g, n + w, p);
    assert (b + 2 * g) * p == b * p + 2 * (p * g);
    assert (n + w) * p == p * n + w * p;
    Moved(p, w - 1, before);
    assert b * p == p * (w - 1) * before by { MulAssoc(p, w - 1, before); }
  }

  lemma Rearranged(p: nat, x: nat, d: nat)
    ensures p * d * x == p * (x * d) == d * (p * x)
  {
    MulAssoc(p, d, x);
    MulAssoc(d, p, x);
  }

  lemma Moved(a: nat, c: nat, x: int)
    ensures a * c * x == c * (a * x)
  {
    MulAssoc(c, a, x);
  }

  lemma SplitTimes(c: nat, x: nat)
    ensures (c + 2) * x == c * x + 2 * x && x * (c + 2) == c * x + 2 * x && x * c == c * x
  {
  }

  lemma Distributed(c: nat, a: int, b: int, x: int, y: int)
    ensures c * (a + b) == c * a + c * b
    ensures c * (2 * (a + b)) == 2 * (c * a) + 2 * (c * b)
    ensures c * (2 * x + y) == 2 * (c * x) + c * y
  {
  }

  lemma Upper(c: nat, a: int, b: int)
    requires a <= b
    ensures c * a <= c * b
  {
  }

  // ---------------------------------------------------------------------------
  // Equal gaps and equal bits
  // ---------------------------------------------------------------------------

  ghost predicate Even(p: Params, hist: seq<Header>, bits: Bits, gap: nat) {
    && hist != [] && EvenGaps(hist, 1, gap)
    && (forall h :: 0 <= h < |hist| ==> hist[h].bits == bits)
    && forall h :: 0 < h < |hist| ==> !IsEmergencyBlock(p, hist[h - 1], hist[h])
  }

  lemma {:induction false} LwmaEven(p: Params, hist: seq<Header>, bits: Bits, gap: nat, window: nat, k: nat)
    requires Even(p, hist, bits, gap) && k <= window < |hist|
    ensures var sums := LwmaUpTo(p, hist, window, k);
            && sums.stable == Expand(bits)
            && sums.targets == Product(Expand(bits), sums.weight)
            && sums.solvetime == Product(gap, sums.weight)
  {
    hide Expand, LwmaUpTo, IsEmergencyBlock, Product, ClampSolvetime;
    LwmaUnfold(p, hist, window, k);
    if k == 0 {
      ProductZero(Expand(bits));
      ProductZero(gap);
    } else {
      LwmaEven(p, hist, bits, gap, window, k - 1);
      var h, weight := |hist| - 1 - window + k, LwmaUpTo(p, hist, window, k - 1).weight;
      assert !IsEmergencyBlock(p, hist[h - 1], hist[h]);
      ProductAdd(Expand(bits), weight, k);
      ProductAdd(gap, weight, k);
    }
  }

  /** On such a history the moving average gives a quarter of the scaled and three quarters of the old target. */
  lemma LwmaTargetEven(p: Params, hist: seq<Header>, bits: Bits, gap: nat, window: nat)
    requires Even(p, hist, bits, gap) && 0 < window < |hist| && 100 <= gap <= 3000
    ensures var sums := LwmaUpTo(p, hist, window, window);
            && 0 < sums.weight
            && LwmaTarget(Quotient(sums.targets, sums.weight), sums.solvetime, sums.weight)
               == Quotient(Product(Expand(bits), gap + 1800), 2400)
  {
    hide Expand, LwmaUpTo, LwmaTarget;
    LwmaEven(p, hist, bits, gap, window, window);
    WeightPositive(p, hist, window);
    var t, w := Expand(bits), LwmaUpTo(p, hist, window, window).weight;
    DivOfMul(t, w);
    MulMono(100, gap, w);
    MulMono(gap, 3000, w);
    DampedExactly(t, Product(gap, w), w);
    assert t * (gap * w + 1800 * w) == w * (t * (gap + 1800));
    Cancelled(t * (gap + 1800), 2400, w);
  }

  lemma Cancelled(a: nat, d: nat, w: nat)
    requires 0 < d && 0 < w
    ensures 0 < d * w && (w * a) / (d * w) == a / d
  {
    MulStrictMono(0, d, w);
    var q, r := a / d, a % d;
    assert w * (q * d + r) == q * (d * w) + r * w;
    MulStrictMono(r, d, w);
    DivUnique(w * a, d * w, q, r * w);
  }

  /** Main result: after equal blocks that took longer than they should, a candidate that takes as long gets the target
      scaled by that time, whatever averages the network uses. */
  lemma EvenlySlow(p: Params, hist: seq<Header>, bits: Bits, gap: nat, window: nat)
    requires Even(p, hist, bits, gap) && 0 < window < |hist| && 600 < gap <= 3000
    ensures CombinedTarget(p, hist, window, Expand(bits), gap) == Min(Quotient(Product(Expand(bits), gap), 600), PowLimit(p))
  {
    hide Expand, LwmaUpTo, LwmaTarget, EmaTarget, PowLimit, ClampSolvetime;
    LwmaTargetEven(p, hist, bits, gap, window);
    var t := Expand(bits);
    EvenLater(hist, gap, EmaWindow(p, |hist| - 1));
    EmaTargetWithin(p, hist, t, gap, 600, gap);
    var e := EmaTarget(p, hist, t, gap);
    DivAtLeast(t * gap, 600, e);
    QuarterBelow(t, gap);
  }

  lemma EvenLater(hist: seq<Header>, gap: nat, window: nat)
    requires EvenGaps(hist, 1, gap) && 0 < window < |hist|
    ensures EvenGaps(hist, |hist| - window, gap)
    ensures forall h :: |hist| - window <= h < |hist| ==> ClampSolvetime(hist[h].timestamp - hist[h - 1].timestamp) == gap
  {
    hide ClampSolvetime;
  }

  lemma QuarterBelow(t: nat, gap: nat)
    requires 600 <= gap
    ensures Quotient(Product(t, gap + 1800), 2400) <= Quotient(Product(t, gap), 600)
  {
    MulMono(gap + 1800, 4 * gap, t);
    assert t * (4 * gap) == 4 * (t * gap);
    DivMono(t * (gap + 1800), 4 * (t * gap), 2400);
    Cancelled(t * gap, 600, 4);
  }

  /** Main result: after equal blocks that came too fast, mainnet gives three quarters of the target and a quarter of the
      target scaled by the time they took; the exponential average, which follows faster, does not matter. */
  lemma EvenlyFast(p: Params, hist: seq<Header>, bits: Bits, gap: nat, window: nat)
    requires Even(p, hist, bits, gap) && 0 < window < |hist| && 12 < |hist| && 100 <= gap <= 600
    requires p.useEma ==> p.emaWindow == 12
    ensures CombinedTarget(p, hist, window, Expand(bits), gap)
            == Min(Quotient(Product(Expand(bits), gap + 1800), 2400), PowLimit(p))
  {
    hide Expand, LwmaUpTo, LwmaTarget, EmaTarget, PowLimit, ClampSolvetime;
    LwmaTargetEven(p, hist, bits, gap, window);
    if p.useEma {
      EvenLater(hist, gap, 12);
      EmaFast(p, hist, Expand(bits), gap);
    }
  }

  lemma EmaFast(p: Params, hist: seq<Header>, last: nat, gap: nat)
    requires 12 < |hist| && p.emaWindow == 12 && EvenGaps(hist, |hist| - 12, gap) && gap <= 600
    ensures EmaTarget(p, hist, last, gap) <= Quotient(Product(last, gap + 1800), 2400)
  {
    hide EmaStep, EmaUpTo, Power, ClampSolvetime, Product;
    var ema := EmaUpTo(hist, 12, 12);
    EmaOnEvenGaps(hist, 12, 12, gap);
    ShrinksEnough();
    EmaNear(Power(13, 12), Power(11, 12), ema, gap);
    EmaStepExact(ema, gap, 12);
    var next := EmaStep(ema, gap, 12);
    NearStays(ema, next, gap);
    ScaleBounds(last, next, BLOCK_TIME_SECONDS * EMA_SCALE);
    NearTarget(last, next, EmaTarget(p, hist, last, gap), gap);
  }

  /** Twelve steps leave less than three quarters of the distance. */
  lemma ShrinksEnough()
    ensures 4 * Power(11, 12) <= 3 * Power(13, 12) && 0 < Power(13, 12)
  {
    PowersBelow(10);
    var p, q := Power(13, 10), Power(11, 10);
    assert Power(13, 12) == p * 169;
    assert Power(11, 12) == q * 121;
  }

  lemma {:induction false} PowersBelow(k: nat)
    ensures Power(11, k) <= Power(13, k) && 0 < Power(13, k)
  {
    if k != 0 {
      PowersBelow(k - 1);
    }
  }

  lemma EmaNear(p: nat, q: nat, ema: nat, gap: nat)
    requires 0 < p && 4 * q <= 3 * p && gap <= 600
    requires p * ema <= p * (1024 * gap) + q * (1024 * 600 - 1024 * gap)
    ensures 4 * ema <= 1024 * (gap + 1800)
  {
    var d := 1024 * 600 - 1024 * gap;
    MulMono(4 * q, 3 * p, d);
    assert p * (4 * ema) == 4 * (p * ema);
    assert p * (1024 * (gap + 1800)) == 4 * (p * (1024 * gap)) + 3 * p * d;
    if 1024 * (gap + 1800) < 4 * ema {
      MulStrictMono(1024 * (gap + 1800), 4 * ema, p);
    }
  }

  lemma NearStays(ema: nat, next: nat, gap: nat)
    requires 4 * ema <= 1024 * (gap + 1800) && gap <= 600 && Product(next, 13) <= Product(11, ema) + 2 * (1024 * gap)
    ensures 4 * next <= 1024 * (gap + 1800)
  {
  }

  lemma NearTarget(last: nat, ema: nat, t: nat, gap: nat)
    requires 4 * ema <= 1024 * (gap + 1800) && Product(t, 600 * 1024) <= Product(last, ema)
    ensures t <= Quotient(Product(last, gap + 1800), 2400)
  {
    MulMono(4 * ema, 1024 * (gap + 1800), last);
    assert last * (4 * ema) == 4 * (last * ema);
    assert last * (1024 * (gap + 1800)) == 1024 * (last * (gap + 1800));
    DivAtLeast(last * (gap + 1800), 2400, t);
  }

  // ---------------------------------------------------------------------------
  // Which rule applies
  // ---------------------------------------------------------------------------

  /** The block at height h is the highest one up to k that is not an emergency block. */
  ghost predicate HighestStable(p: Params, hist: seq<Header>, k: nat, h: nat)
    requires k < |hist|
  {
    && 0 < h <= k && !IsEmergencyBlock(p, hist[h - 1], hist[h])
    && forall i :: h < i <= k ==> IsEmergencyBlock(p, hist[i - 1], hist[i])
  }

  /** Main result: after an emergency block the bits return to those of the highest block that is none. */
  lemma {:induction false} StableBitsAre(p: Params, hist: seq<Header>, k: nat, h: nat, fallback: Bits)
    requires k < |hist| && HighestStable(p, hist, k, h)
    ensures LastNonEmergencyBits(p, hist, k, fallback) == hist[h].bits
  {
    hide IsEmergencyBlock;
    if h < k {
      StableBitsAre(p, hist, k - 1, h, fallback);
    }
  }

  /** If every block after the first is an emergency block, they stay as given. */
  lemma {:induction false} NoStableBits(p: Params, hist: seq<Header>, k: nat, fallback: Bits)
    requires k < |hist| && forall h :: 0 < h <= k ==> IsEmergencyBlock(p, hist[h - 1], hist[h])
    ensures LastNonEmergencyBits(p, hist, k, fallback) == fallback
  {
    hide IsEmergencyBlock;
    if k != 0 {
      NoStableBits(p, hist, k - 1, fallback);
    }
  }

  /** Solve times count with at least 100 and at most 3600 seconds, and the averages look back over at most 72 blocks. */
  lemma Limits(hist: seq<Header>, seconds: int)
    ensures ClampSolvetime(seconds) == Max(100, Min(seconds, 3600))
    ensures hist != [] ==> Window(hist) == Min(|hist| - 1, 72)
  {
  }

  /** Mainnet asks for the easiest target exactly twenty minutes after the parent; before that, up to height six, it keeps
      the bits, unless the parent itself used that rule. */
  lemma MainnetRules(hist: seq<Header>, lastBits: Bits, timestamp: Uint32)
    requires 1 < |hist| && hist[|hist| - 1].timestamp + 1200 < 0x1_0000_0000 && hist[|hist| - 2].timestamp + 1200 < 0x1_0000_0000
    ensures hist[|hist| - 1].timestamp + 1200 <= timestamp ==> NextWork(MAINNET, hist, lastBits, timestamp) == 0x3e00ffff
    ensures timestamp < hist[|hist| - 1].timestamp + 1200 && |hist| <= 6
            && (hist[|hist| - 1].bits != 0x3e00ffff || hist[|hist| - 1].timestamp < hist[|hist| - 2].timestamp + 1200) ==>
              NextWork(MAINNET, hist, lastBits, timestamp) == lastBits
    ensures timestamp < hist[|hist| - 1].timestamp + 1200
            && hist[|hist| - 1].bits == 0x3e00ffff && hist[|hist| - 2].timestamp + 1200 <= hist[|hist| - 1].timestamp ==>
              NextWork(MAINNET, hist, lastBits, timestamp) == LastNonEmergencyBits(MAINNET, hist, |hist| - 1, lastBits)
  {
    hide CombinedTarget, LastNonEmergencyBits, FromTarget;
  }
}
