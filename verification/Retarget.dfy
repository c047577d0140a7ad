/** Difficulty adjustment: the compact target the next block must carry. */
module Retarget {
  import opened Arith
  import opened CompactTarget
  import opened Primitives

  const MIN_SOLVETIME: nat := 100
  const MAX_SOLVETIME: nat := 3600
  const LWMA_WINDOW: nat := 72
  const EMA_SCALE: nat := 1024

  function ClampSolvetime(seconds: int): nat {
    if seconds < MIN_SOLVETIME then MIN_SOLVETIME
    else if seconds > MAX_SOLVETIME then MAX_SOLVETIME
    else seconds
  }

  predicate IsEmergencyBlock(p: Params, previous: Header, current: Header) {
    && 0 < p.emergencyDelay
    && current.bits == p.powLimitBits
    && Wrap32(previous.timestamp + p.emergencyDelay) <= current.timestamp
  }

  /** Bits of the highest block in 1..k that is not an emergency block. */
  function LastNonEmergencyBits(p: Params, hist: seq<Header>, k: nat, fallback: Bits): Bits
    requires k < |hist|
  {
    if k == 0 then fallback
    else if !IsEmergencyBlock(p, hist[k - 1], hist[k]) then hist[k].bits
    else LastNonEmergencyBits(p, hist, k - 1, fallback)
  }

  /** Running sums of the linearly weighted moving average. */
  datatype Lwma = Lwma(solvetime: nat, weight: nat, targets: nat, stable: nat)

  function SampleSolvetime(p: Params, previous: Header, current: Header): nat {
    if IsEmergencyBlock(p, previous, current) then BLOCK_TIME_SECONDS
    else ClampSolvetime(current.timestamp - previous.timestamp)
  }

  function SampleTarget(p: Params, previous: Header, current: Header, stable: nat): nat {
    if IsEmergencyBlock(p, previous, current) then stable else Expand(current.bits)
  }

  /** The sums over the first k blocks of the window that ends the history. */
  function LwmaUpTo(p: Params, hist: seq<Header>, window: nat, k: nat): Lwma
    requires k <= window < |hist|
  {
    if k == 0 then Lwma(0, 0, 0, Expand(hist[|hist| - 1 - window].bits))
    else
      var sums := LwmaUpTo(p, hist, window, k - 1);
      LwmaStep(p, hist[|hist| - 2 - window + k], hist[|hist| - 1 - window + k], sums, k)
  }

  function LwmaStep(p: Params, previous: Header, current: Header, sums: Lwma, weight: nat): Lwma {
    var sample := SampleTarget(p, previous, current, sums.stable);
    Lwma(sums.solvetime + Product(SampleSolvetime(p, previous, current), weight),
         sums.weight + weight,
         sums.targets + Product(sample, weight),
         sample)
  }

  /** Adjusted target of the moving average: damped, then kept within a factor of two. */
  function LwmaTarget(average: nat, solvetime: nat, weight: nat): nat
    requires 0 < weight
  {
    var raw := Scale(average, solvetime, BLOCK_TIME_SECONDS * weight);
    var damped := (raw + 3 * average) / 4;
    if damped < average / 2 then average / 2
    else if damped > 2 * average then 2 * average
    else damped
  }

  function EmaWindow(p: Params, best: nat): nat {
    Min(best, Max(p.emaWindow, 1))
  }

  /** One step of the exponential moving average of the solve time, in 1/1024 seconds. */
  function EmaStep(ema: nat, sample: nat, window: nat): nat
    requires 0 < window
  {
    Quotient(Product(window - 1, ema) + 2 * sample * EMA_SCALE, window + 1)
  }

  function EmaUpTo(hist: seq<Header>, window: nat, k: nat): nat
    requires k <= window < |hist| && 0 < window
  {
    if k == 0 then BLOCK_TIME_SECONDS * EMA_SCALE
    else
      var height := |hist| - 1 - window + k;
      EmaStep(EmaUpTo(hist, window, k - 1),
              ClampSolvetime(hist[height].timestamp - hist[height - 1].timestamp), window)
  }

  function EmaTarget(p: Params, hist: seq<Header>, last: nat, gap: nat): nat
    requires 1 < |hist|
  {
    var window := EmaWindow(p, |hist| - 1);
    var ema := EmaStep(EmaUpTo(hist, window, window), gap, window);
    Scale(last, ema, BLOCK_TIME_SECONDS * EMA_SCALE)
  }

  /** The easiest of the three estimates, at most the proof-of-work limit. */
  function CombinedTarget(p: Params, hist: seq<Header>, window: nat, last: nat, gap: nat): nat
    requires 0 < window < |hist|
  {
    var sums := LwmaUpTo(p, hist, window, window);
    WeightPositive(p, hist, window);
    var lwma := LwmaTarget(Quotient(sums.targets, sums.weight), sums.solvetime, sums.weight);
    var eased := if p.useEma then Max(lwma, EmaTarget(p, hist, last, gap)) else lwma;
    var slowed := if gap > BLOCK_TIME_SECONDS then Max(eased, Scale(last, gap, BLOCK_TIME_SECONDS)) else eased;
    Min(slowed, PowLimit(p))
  }

  lemma WeightPositive(p: Params, hist: seq<Header>, window: nat)
    requires 0 < window < |hist|
    ensures 0 < LwmaUpTo(p, hist, window, window).weight
  {
  }

  function EffectiveTimestamp(last: Header, timestamp: Uint32): Uint32 {
    Max(timestamp, Wrap32(last.timestamp + 1))
  }

  /** A block this late may carry the easiest target. */
  predicate LateEnough(p: Params, last: Header, effective: Uint32) {
    || (p.allowMinDifficulty && effective > Wrap32(last.timestamp + 2 * BLOCK_TIME_SECONDS))
    || (0 < p.emergencyDelay && effective >= Wrap32(last.timestamp + p.emergencyDelay))
  }

  predicate LastWasEmergency(p: Params, hist: seq<Header>)
    requires 1 < |hist|
  {
    IsEmergencyBlock(p, hist[|hist| - 2], hist[|hist| - 1])
  }

  function Window(hist: seq<Header>): nat
    requires hist != []
  {
    Min(|hist| - 1, LWMA_WINDOW)
  }

  /** The bits required on top of the history `hist` (indexed by height). */
  function NextWork(p: Params, hist: seq<Header>, lastBits: Bits, timestamp: Uint32): Bits
    requires hist != []
  {
    if p.fixedDifficulty then p.powLimitBits
    else if |hist| == 1 then lastBits
    else
      var last := hist[|hist| - 1];
      var effective := EffectiveTimestamp(last, timestamp);
      if LateEnough(p, last, effective) then p.powLimitBits
      else if LastWasEmergency(p, hist) then LastNonEmergencyBits(p, hist, |hist| - 1, lastBits)
      else if Window(hist) < 6 then lastBits
      else FromTarget(CombinedTarget(p, hist, Window(hist), Expand(lastBits),
                                     ClampSolvetime(effective - last.timestamp)))
  }

  // ---------------------------------------------------------------------------
  // The loop form
  // ---------------------------------------------------------------------------

  /** The headers that the maps of the node assign to heights 0..best. */
  function Headers(heightMap: map<nat, nat>, index: map<nat, Header>, best: nat): (hist: seq<Header>)
    requires Covers(heightMap, index, best)
    ensures |hist| == best + 1
    ensures forall h :: 0 <= h <= best ==> hist[h] == index[heightMap[h]]
  {
    seq(best + 1, h requires 0 <= h <= best => index[heightMap[h]])
  }

  predicate Covers(heightMap: map<nat, nat>, index: map<nat, Header>, best: nat) {
    forall h: nat :: h <= best ==> h in heightMap && heightMap[h] in index
  }

  method FindLastNonEmergencyBits(p: Params, heightMap: map<nat, nat>, index: map<nat, Header>,
                                  best: nat, fallback: Bits) returns (bits: Bits)
    requires Covers(heightMap, index, best)
    ensures bits == LastNonEmergencyBits(p, Headers(heightMap, index, best), best, fallback)
  {
    ghost var hist := Headers(heightMap, index, best);
    var cursor: nat := best;
    while cursor > 0
      invariant cursor <= best
      invariant LastNonEmergencyBits(p, hist, best, fallback) == LastNonEmergencyBits(p, hist, cursor, fallback)
    {
      var current, previous := index[heightMap[cursor]], index[heightMap[cursor - 1]];
      if !IsEmergencyBlock(p, previous, current) {
        return current.bits;
      }
      cursor := cursor - 1;
    }
    return fallback;
  }

  method LwmaLoop(p: Params, heightMap: map<nat, nat>, index: map<nat, Header>, best: nat, window: nat)
    returns (solvetime: nat, weight: nat, targets: nat)
    requires Covers(heightMap, index, best) && window <= best
    ensures var sums := LwmaUpTo(p, Headers(heightMap, index, best), window, window);
            solvetime == sums.solvetime && weight == sums.weight && targets == sums.targets
  {
    hide Expand, ClampSolvetime, Product;
    ghost var hist := Headers(heightMap, index, best);
    solvetime, weight, targets := 0, 0, 0;
    var stable := Expand(index[heightMap[best - window]].bits);
    for offset := 0 to window
      invariant LwmaUpTo(p, hist, window, offset) == Lwma(solvetime, weight, targets, stable)
    {
      var currentHeight := best - window + 1 + offset;
      var current, previous := index[heightMap[currentHeight]], index[heightMap[currentHeight - 1]];
      var sampleTime := ClampSolvetime(current.timestamp - previous.timestamp);
      var sample := Expand(current.bits);
      if IsEmergencyBlock(p, previous, current) {
        sampleTime := BLOCK_TIME_SECONDS;
        sample := stable;
      } else {
        stable := sample;
      }
      solvetime := solvetime + Product(sampleTime, offset + 1);
      weight := weight + offset + 1;
      targets := targets + Product(sample, offset + 1);
    }
  }

  method EmaLoop(heightMap: map<nat, nat>, index: map<nat, Header>, best: nat, window: nat) returns (ema: nat)
    requires Covers(heightMap, index, best) && 0 < window <= best
    ensures ema == EmaUpTo(Headers(heightMap, index, best), window, window)
  {
    hide ClampSolvetime, EmaStep;
    ghost var hist := Headers(heightMap, index, best);
    ema := BLOCK_TIME_SECONDS * EMA_SCALE;
    for height := best - window + 1 to best + 1
      invariant ema == EmaUpTo(hist, window, height - (best - window + 1))
    {
      var current, previous := index[heightMap[height]], index[heightMap[height - 1]];
      ema := EmaStep(ema, ClampSolvetime(current.timestamp - previous.timestamp), window);
    }
  }

  /** The retarget reads nothing but the headers at heights up to the parent. */
  method GetNextWorkRequired(p: Params, heightMap: map<nat, nat>, index: map<nat, Header>,
                             best: nat, lastBits: Bits, timestamp: Uint32) returns (bits: Bits)
    requires Covers(heightMap, index, best)
    ensures bits == NextWork(p, Headers(heightMap, index, best), lastBits, timestamp)
  {
    hide Expand, FromTarget, LwmaTarget, EmaStep, EmaUpTo, LwmaUpTo, LastNonEmergencyBits, Scale, ClampSolvetime,
         IsEmergencyBlock, EffectiveTimestamp, LateEnough, Quotient;
    if p.fixedDifficulty {
      return p.powLimitBits;
    }
    if best == 0 {
      return lastBits;
    }
    ghost var hist := Headers(heightMap, index, best);
    var last := index[heightMap[best]];
    var effective := EffectiveTimestamp(last, timestamp);
    var gap := ClampSolvetime(effective - last.timestamp);
    if LateEnough(p, last, effective) {
      return p.powLimitBits;
    }
    if IsEmergencyBlock(p, index[heightMap[best - 1]], last) {
      bits := FindLastNonEmergencyBits(p, heightMap, index, best, lastBits);
      return;
    }
    var window := Min(best, LWMA_WINDOW);
    if window < 6 {
      return lastBits;
    }
    var solvetime, weight, targets := LwmaLoop(p, heightMap, index, best, window);
    WeightPositive(p, hist, window);
    var next := LwmaTarget(Quotient(targets, weight), solvetime, weight);
    var lastTarget := Expand(lastBits);
    if p.useEma {
      var emaWindow := EmaWindow(p, best);
      var ema := EmaLoop(heightMap, index, best, emaWindow);
      ema := EmaStep(ema, gap, emaWindow);
      next := Max(next, Scale(lastTarget, ema, BLOCK_TIME_SECONDS * EMA_SCALE));
    }
    if gap > BLOCK_TIME_SECONDS {
      next := Max(next, Scale(lastTarget, gap, BLOCK_TIME_SECONDS));
    }
    bits := FromTarget(Min(next, PowLimit(p)));
  }
}
