/**
 Top and base: the two densest, well separated bands of the amplitude histogram, or
 the extremes when there are no two clear ones. The histogram's bins are related to
 the voltages they stand for by counting samples per voltage band.
 */
module LevelFinder {
  import opened EdgeDetector

  const HISTOGRAM_BINS: nat := 128
  const MIN_SEPARATION_BINS: nat := HISTOGRAM_BINS / 8
  const MIN_MODE_SHARE: real := 0.05
  const MIN_SECOND_MODE_SHARE: real := 0.02

  datatype Levels = Levels(top: real, base: real, valid: bool) {
    function Amplitude(): real { top - base }
    function Mid(): real { (top + base) * 0.5 }
  }

  // ---- extremes ---------------------------------------------------------------------

  function MinOf(s: seq<Count>): (m: Count)
    requires s != []
    ensures m in s && forall c :: c in s ==> m <= c
  {
    var last := s[|s| - 1];
    if |s| == 1 then last
    else
      var m := MinOf(s[..|s| - 1]);
      assert s == s[..|s| - 1] + [last];
      if last < m then last else m
  }

  function MaxOf(s: seq<Count>): (m: Count)
    requires s != []
    ensures m in s && forall c :: c in s ==> c <= m
  {
    var last := s[|s| - 1];
    if |s| == 1 then last
    else
      var m := MaxOf(s[..|s| - 1]);
      assert s == s[..|s| - 1] + [last];
      if last > m then last else m
  }

  // ---- the histogram -----------------------------------------------------------------

  /** The bin a count falls into before clamping. */
  function RawBin(c: Count, mn: Count, mx: Count): int
    requires mn < mx
  {
    ((c - mn) as real / (mx - mn) as real * (HISTOGRAM_BINS - 1) as real).Floor
  }

  function Clamp(b: int): nat {
    if b < 0 then 0 else if b > HISTOGRAM_BINS - 1 then HISTOGRAM_BINS - 1 else b
  }

  function BinCount(s: seq<Count>, mn: Count, mx: Count, b: nat): nat
    requires mn < mx
  {
    if s == [] then 0
    else BinCount(s[..|s| - 1], mn, mx, b) + if Clamp(RawBin(s[|s| - 1], mn, mx)) == b then 1 else 0
  }

  function Histogram(s: seq<Count>, mn: Count, mx: Count): (h: seq<nat>)
    requires mn < mx
    ensures |h| == HISTOGRAM_BINS
  {
    seq(HISTOGRAM_BINS, b requires 0 <= b < HISTOGRAM_BINS => BinCount(s, mn, mx, b))
  }

  function Sum(h: seq<nat>): nat {
    if h == [] then 0 else Sum(h[..|h| - 1]) + h[|h| - 1]
  }

  lemma {:induction false} SumOfBump(h: seq<nat>, i: nat)
    requires i < |h|
    ensures Sum(h[i := h[i] + 1]) == Sum(h) + 1
  {
    var g := h[i := h[i] + 1];
    if i == |h| - 1 {
      assert g[..|g| - 1] == h[..|h| - 1];
    } else {
      SumOfBump(h[..|h| - 1], i);
      assert g[..|g| - 1] == h[..|h| - 1][i := h[i] + 1];
    }
  }

  lemma {:induction false} SumOfZeros(h: seq<nat>)
    requires forall i :: 0 <= i < |h| ==> h[i] == 0
    ensures Sum(h) == 0
  {
    if h != [] {
      SumOfZeros(h[..|h| - 1]);
    }
  }

  lemma HistogramSnoc(s: seq<Count>, c: Count, mn: Count, mx: Count)
    requires mn < mx
    ensures var h, b := Histogram(s, mn, mx), Clamp(RawBin(c, mn, mx));
            Histogram(s + [c], mn, mx) == h[b := h[b] + 1]
  {
  }

  /** Every sample is counted once. */
  lemma {:induction false} BinsSumToCount(s: seq<Count>, mn: Count, mx: Count)
    requires mn < mx
    ensures Sum(Histogram(s, mn, mx)) == |s|
  {
    if s == [] {
      SumOfZeros(Histogram(s, mn, mx));
    } else {
      var front, last := s[..|s| - 1], s[|s| - 1];
      var h, b := Histogram(front, mn, mx), Clamp(RawBin(last, mn, mx));
      BinsSumToCount(front, mn, mx);
      HistogramSnoc(front, last, mn, mx);
      SumOfBump(h, b);
      assert s == front + [last];
    }
  }

  // ---- the densest bins -----------------------------------------------------------------

  function Distance(a: int, b: int): nat { if a < b then b - a else a - b }

  /** The first densest non-empty bin among the first `n` that is `gap` or more from `from`. */
  function Densest(h: seq<nat>, n: nat, from: int, gap: nat): (best: int)
    requires n <= |h|
    ensures -1 <= best < n
  {
    if n == 0 then -1
    else
      var best := Densest(h, n - 1, from, gap);
      if Distance(n - 1, from) >= gap && h[n - 1] > (if best < 0 then 0 else h[best]) then n - 1 else best
  }

  lemma {:induction false} DensestIs(h: seq<nat>, n: nat, from: int, gap: nat)
    requires n <= |h|
    ensures var best := Densest(h, n, from, gap);
            && (best >= 0 ==> Distance(best, from) >= gap && h[best] > 0)
            && (forall b :: 0 <= b < n && Distance(b, from) >= gap ==> h[b] <= if best < 0 then 0 else h[best])
            && forall b :: 0 <= b < best && Distance(b, from) >= gap ==> h[b] < h[best]
  {
    if n > 0 {
      DensestIs(h, n - 1, from, gap);
    }
  }

  lemma {:induction false} SomeBinIsUsed(h: seq<nat>, n: nat, from: int)
    requires n <= |h| && Sum(h[..n]) > 0
    ensures Densest(h, n, from, 0) >= 0
  {
    assert n > 0;
    assert h[..n][..n - 1] == h[..n - 1];
    if Sum(h[..n - 1]) > 0 {
      SomeBinIsUsed(h, n - 1, from);
    }
  }

  // ---- the levels --------------------------------------------------------------------------

  function At(h: seq<nat>, b: int): nat
    requires b < |h|
  {
    if b < 0 then 0 else h[b]
  }

  /** Whether two clear modes were found. */
  predicate TwoModes(count: nat, firstMax: nat, secondMax: nat)
    requires count > 0
  {
    && !((firstMax + secondMax) as real / count as real < MIN_MODE_SHARE)
    && secondMax as real / count as real >= MIN_SECOND_MODE_SHARE
  }

  function BinVolts(vMin: real, vMax: real): real { (vMax - vMin) / (HISTOGRAM_BINS - 1) as real }

  /** The voltages at which two bins begin, the higher bin's as top. */
  function LevelsAtBins(vMin: real, vMax: real, first: int, second: int): Levels {
    var low, high := if first < second then first else second, if first < second then second else first;
    Levels(vMin + high as real * BinVolts(vMin, vMax), vMin + low as real * BinVolts(vMin, vMax), true)
  }

  function LevelsOf(s: seq<Count>, k: real, zero: real): Levels {
    if s == [] then Levels(0.0, 0.0, false)
    else
      var mn, mx := MinOf(s), MaxOf(s);
      var vMin, vMax := Volts(mn, k, zero), Volts(mx, k, zero);
      if mx == mn then Levels(vMin, vMin, true)
      else
        var h := Histogram(s, mn, mx);
        var first := Densest(h, HISTOGRAM_BINS, 0, 0);
        var second := Densest(h, HISTOGRAM_BINS, first, MIN_SEPARATION_BINS);
        if !TwoModes(|s|, At(h, first), At(h, second)) then Levels(vMax, vMin, true)
        else LevelsAtBins(vMin, vMax, first, second)
  }

  method FindLevels(samples: seq<Count>, k: real, zero: real) returns (out: Levels)
    ensures out == LevelsOf(samples, k, zero)
  {
    if samples == [] { return Levels(0.0, 0.0, false); }
    hide MinOf, MaxOf, Histogram, Densest, TwoModes, Volts, LevelsAtBins;
    var mn, mx := Extremes(samples);
    var vMin, vMax := Volts(mn, k, zero), Volts(mx, k, zero);
    if mx == mn { return Levels(vMin, vMin, true); }

    var bins := CountBins(samples, mn, mx);
    var firstBin, firstMax := DensestBin(bins, 0, 0);
    SomeSample(samples, mn, mx);
    var secondBin, secondMax := DensestBin(bins, firstBin, MIN_SEPARATION_BINS);
    if !TwoModes(|samples|, firstMax, secondMax) { return Levels(vMax, vMin, true); }

    out := LevelsAtBins(vMin, vMax, firstBin, secondBin);
  }

  method Extremes(samples: seq<Count>) returns (mn: Count, mx: Count)
    requires samples != []
    ensures mn == MinOf(samples) && mx == MaxOf(samples)
  {
    mn, mx := samples[0], samples[0];
    for i := 1 to |samples|
      invariant mn == MinOf(samples[..i]) && mx == MaxOf(samples[..i])
    {
      assert samples[..i + 1][..i] == samples[..i];
      mn := if samples[i] < mn then samples[i] else mn;
      mx := if samples[i] > mx then samples[i] else mx;
    }
    assert samples[..|samples|] == samples;
  }

  lemma SomeSample(s: seq<Count>, mn: Count, mx: Count)
    requires mn < mx && s != []
    ensures Densest(Histogram(s, mn, mx), HISTOGRAM_BINS, 0, 0) >= 0
  {
    var h := Histogram(s, mn, mx);
    BinsSumToCount(s, mn, mx);
    assert h[..HISTOGRAM_BINS] == h;
    SomeBinIsUsed(h, HISTOGRAM_BINS, 0);
  }

  method CountBins(samples: seq<Count>, mn: Count, mx: Count) returns (bins: seq<nat>)
    requires mn < mx
    ensures bins == Histogram(samples, mn, mx)
  {
    var counts := new nat[HISTOGRAM_BINS](_ => 0);
    for i := 0 to |samples|
      invariant counts[..] == Histogram(samples[..i], mn, mx)
    {
      var b := Clamp(RawBin(samples[i], mn, mx));
      HistogramSnoc(samples[..i], samples[i], mn, mx);
      assert samples[..i + 1] == samples[..i] + [samples[i]];
      counts[b] := counts[b] + 1;
    }
    assert samples[..|samples|] == samples;
    bins := counts[..];
  }

  /** The loop both searches share; the source starts the second one at the first bin. */
  method DensestBin(bins: seq<nat>, from: int, gap: nat) returns (bin: int, most: nat)
    requires |bins| == HISTOGRAM_BINS
    ensures bin == Densest(bins, HISTOGRAM_BINS, from, gap) && most == At(bins, bin)
  {
    bin, most := -1, 0;
    for b := 0 to HISTOGRAM_BINS
      invariant bin == Densest(bins, b, from, gap) && most == At(bins, bin)
    {
      if Distance(b, from) < gap { continue; }
      if bins[b] > most {
        bin, most := b, bins[b];
      }
    }
  }

  // ---- what the levels mean -----------------------------------------------------------------

  /** How many samples lie in a voltage band. */
  function Population(s: seq<Count>, k: real, zero: real, from: real, to: real): nat {
    if s == [] then 0
    else
      Population(s[..|s| - 1], k, zero, from, to)
      + if from <= Volts(s[|s| - 1], k, zero) < to then 1 else 0
  }

  /** The voltage at which bin b begins. */
  function BandStart(vMin: real, w: real, b: nat): real { vMin + b as real * w }

  /** Where a count lies in the histogram, in bins, before rounding down. */
  function Coordinate(c: Count, mn: Count, mx: Count): real
    requires mn < mx
  {
    (c - mn) as real / (mx - mn) as real * (HISTOGRAM_BINS - 1) as real
  }

  lemma CoordinateIsVolts(c: Count, mn: Count, mx: Count, k: real, zero: real)
    requires mn < mx && mn <= c <= mx && k > 0.0
    ensures var vMin, w := Volts(mn, k, zero), BinVolts(Volts(mn, k, zero), Volts(mx, k, zero));
            && 0.0 <= Coordinate(c, mn, mx) <= (HISTOGRAM_BINS - 1) as real
            && w > 0.0
            && Volts(c, k, zero) == vMin + Coordinate(c, mn, mx) * w
  {
  }

  lemma FloorIsABand(x: real, vMin: real, w: real, b: nat)
    requires 0.0 <= x && w > 0.0
    ensures x.Floor == b <==> BandStart(vMin, w, b) <= vMin + x * w < BandStart(vMin, w, b + 1)
  {
    hide BandStart;
    AgainstBandStart(x, vMin, w, b);
    AgainstBandStart(x, vMin, w, b + 1);
    assert x.Floor == b <==> b as real <= x < (b + 1) as real;
  }

  lemma AgainstBandStart(x: real, vMin: real, w: real, b: nat)
    requires w > 0.0
    ensures b as real <= x <==> BandStart(vMin, w, b) <= vMin + x * w
    ensures x < b as real <==> vMin + x * w < BandStart(vMin, w, b)
  {
  }

  /** A count is in bin b exactly when its voltage is less than one bin width above the bin's level. */
  lemma BinIsABand(c: Count, mn: Count, mx: Count, k: real, zero: real, b: nat)
    requires mn < mx && mn <= c <= mx && k > 0.0
    ensures var vMin, w := Volts(mn, k, zero), BinVolts(Volts(mn, k, zero), Volts(mx, k, zero));
            Clamp(RawBin(c, mn, mx)) == b
            <==> BandStart(vMin, w, b) <= Volts(c, k, zero) < BandStart(vMin, w, b + 1)
    ensures 0 <= RawBin(c, mn, mx) < HISTOGRAM_BINS
  {
    hide Volts, BinVolts, BandStart, Coordinate;
    CoordinateIsVolts(c, mn, mx, k, zero);
    var x := Coordinate(c, mn, mx);
    RawBinIsFloor(c, mn, mx);
    FloorIsABand(x, Volts(mn, k, zero), BinVolts(Volts(mn, k, zero), Volts(mx, k, zero)), b);
  }

  lemma RawBinIsFloor(c: Count, mn: Count, mx: Count)
    requires mn < mx
    ensures RawBin(c, mn, mx) == Coordinate(c, mn, mx).Floor
  {
  }

  /** A bin's count is the number of samples in its voltage band. */
  lemma {:induction false} BinCountIsPopulation(s: seq<Count>, mn: Count, mx: Count, k: real, zero: real, b: nat)
    requires mn < mx && k > 0.0 && forall c :: c in s ==> mn <= c <= mx
    ensures var vMin, w := Volts(mn, k, zero), BinVolts(Volts(mn, k, zero), Volts(mx, k, zero));
            BinCount(s, mn, mx, b) == Population(s, k, zero, BandStart(vMin, w, b), BandStart(vMin, w, b + 1))
  {
    hide Volts, BinVolts, RawBin, Clamp, BandStart;
    if s != [] {
      var front := s[..|s| - 1];
      assert forall c :: c in front ==> c in s;
      BinCountIsPopulation(front, mn, mx, k, zero, b);
      assert s[|s| - 1] in s;
      BinIsABand(s[|s| - 1], mn, mx, k, zero, b);
    }
  }

  /** The share of the samples less than one bin width above a bin's level. */
  function Share(s: seq<Count>, k: real, zero: real, vMin: real, w: real, b: nat): real
    requires s != []
  {
    Population(s, k, zero, BandStart(vMin, w, b), BandStart(vMin, w, b + 1)) as real / |s| as real
  }

  /** Two levels the signal really sits at: `low` and `high` are the bins behind them. */
  ghost predicate RealModes(s: seq<Count>, k: real, zero: real, out: Levels, low: nat, high: nat)
    requires s != []
  {
    var vMin, vMax := Volts(MinOf(s), k, zero), Volts(MaxOf(s), k, zero);
    var w := BinVolts(vMin, vMax);
    && low + 16 <= high < 128
    && out == Levels(BandStart(vMin, w, high), BandStart(vMin, w, low), true)
    && Share(s, k, zero, vMin, w, low) >= 0.02
    && Share(s, k, zero, vMin, w, high) >= 0.02
    && (DenserThanRest(s, k, zero, vMin, w, low, high) || DenserThanRest(s, k, zero, vMin, w, high, low))
  }

  /** No bin is denser than `dense`, and none far from it is denser than `other`. */
  ghost predicate DenserThanRest(s: seq<Count>, k: real, zero: real, vMin: real, w: real, dense: nat, other: nat)
    requires s != []
  {
    forall b :: 0 <= b < HISTOGRAM_BINS ==>
      && Share(s, k, zero, vMin, w, b) <= Share(s, k, zero, vMin, w, dense)
      && (Distance(b, dense) >= MIN_SEPARATION_BINS ==>
            Share(s, k, zero, vMin, w, b) <= Share(s, k, zero, vMin, w, other))
  }

  lemma ShareIsBinCount(s: seq<Count>, k: real, zero: real, b: nat)
    requires s != [] && MinOf(s) < MaxOf(s) && k > 0.0
    ensures var mn, mx := MinOf(s), MaxOf(s);
            var vMin := Volts(mn, k, zero);
            Share(s, k, zero, vMin, BinVolts(vMin, Volts(mx, k, zero)), b)
            == BinCount(s, mn, mx, b) as real / |s| as real
  {
    hide Volts, BinVolts, BandStart;
    BinCountIsPopulation(s, MinOf(s), MaxOf(s), k, zero, b);
  }

  lemma RatiosCompare(a: nat, b: nat, n: nat)
    requires a <= b && n > 0
    ensures a as real / n as real <= b as real / n as real
  {
  }

  lemma SharesAreBinCounts(s: seq<Count>, k: real, zero: real, h: seq<nat>)
    requires s != [] && MinOf(s) < MaxOf(s) && k > 0.0 && h == Histogram(s, MinOf(s), MaxOf(s))
    ensures var vMin := Volts(MinOf(s), k, zero);
            var w := BinVolts(vMin, Volts(MaxOf(s), k, zero));
            forall b: nat :: b < HISTOGRAM_BINS ==> Share(s, k, zero, vMin, w, b) == h[b] as real / |s| as real
  {
    hide Volts, BinVolts, MinOf, MaxOf, Share, BinCount, Histogram;
    var vMin := Volts(MinOf(s), k, zero);
    var w := BinVolts(vMin, Volts(MaxOf(s), k, zero));
    forall b: nat | b < HISTOGRAM_BINS
      ensures Share(s, k, zero, vMin, w, b) == h[b] as real / |s| as real
    {
      ShareIsBinCount(s, k, zero, b);
      BinOf(s, MinOf(s), MaxOf(s), b);
    }
  }

  lemma DensestBinsAreDenser(s: seq<Count>, k: real, zero: real, vMin: real, w: real,
                             h: seq<nat>, first: nat, second: nat)
    requires s != [] && |h| == HISTOGRAM_BINS && first < HISTOGRAM_BINS && second < HISTOGRAM_BINS
    requires forall b: nat :: b < HISTOGRAM_BINS ==> Share(s, k, zero, vMin, w, b) == h[b] as real / |s| as real
    requires forall b :: 0 <= b < HISTOGRAM_BINS ==> h[b] <= h[first]
    requires forall b :: 0 <= b < HISTOGRAM_BINS && Distance(b, first) >= MIN_SEPARATION_BINS ==> h[b] <= h[second]
    ensures DenserThanRest(s, k, zero, vMin, w, first, second)
  {
    hide Share;
    forall b: nat | b < HISTOGRAM_BINS
      ensures Share(s, k, zero, vMin, w, b) <= Share(s, k, zero, vMin, w, first)
      ensures Distance(b, first) >= MIN_SEPARATION_BINS ==>
                Share(s, k, zero, vMin, w, b) <= Share(s, k, zero, vMin, w, second)
    {
      RatiosCompare(h[b], h[first], |s|);
      if Distance(b, first) >= MIN_SEPARATION_BINS {
        RatiosCompare(h[b], h[second], |s|);
      }
    }
  }

  lemma BinOf(s: seq<Count>, mn: Count, mx: Count, b: nat)
    requires mn < mx && b < HISTOGRAM_BINS
    ensures Histogram(s, mn, mx)[b] == BinCount(s, mn, mx, b)
  {
  }

  /** `dense` is a densest bin, and `other` a densest one among those 16 bins or more away from it. */
  ghost predicate DensestPair(s: seq<Count>, k: real, zero: real, dense: nat, other: nat)
    requires s != []
  {
    var vMin := Volts(MinOf(s), k, zero);
    && dense < 128 && other < 128 && (other + 16 <= dense || dense + 16 <= other)
    && DenserThanRest(s, k, zero, vMin, BinVolts(vMin, Volts(MaxOf(s), k, zero)), dense, other)
  }

  /** The two bins hold 5% of the samples between them, and the less dense one 2%. */
  ghost predicate ClearModes(s: seq<Count>, k: real, zero: real, dense: nat, other: nat)
    requires s != []
  {
    var vMin := Volts(MinOf(s), k, zero);
    var w := BinVolts(vMin, Volts(MaxOf(s), k, zero));
    && Share(s, k, zero, vMin, w, dense) + Share(s, k, zero, vMin, w, other) >= 0.05
    && Share(s, k, zero, vMin, w, other) >= 0.02
  }

  /** The levels the source takes from such a pair: the bins themselves when clear, else the extremes. */
  ghost predicate LevelsFrom(s: seq<Count>, k: real, zero: real, out: Levels, dense: nat, other: nat)
    requires s != []
  {
    if !ClearModes(s, k, zero, dense, other) then
      out == Levels(Volts(MaxOf(s), k, zero), Volts(MinOf(s), k, zero), true)
    else if dense < other then RealModes(s, k, zero, out, dense, other)
    else RealModes(s, k, zero, out, other, dense)
  }

  lemma ClearInCounts(s: seq<Count>, k: real, zero: real, h: seq<nat>, dense: nat, other: nat)
    requires s != [] && MinOf(s) < MaxOf(s) && k > 0.0 && h == Histogram(s, MinOf(s), MaxOf(s))
    requires dense < HISTOGRAM_BINS && other < HISTOGRAM_BINS
    ensures ClearModes(s, k, zero, dense, other) <==> TwoModes(|s|, h[dense], h[other])
  {
    hide Volts, BinVolts, MinOf, MaxOf, Share, BinCount, Histogram;
    SharesAreBinCounts(s, k, zero, h);
    RatiosAdd(h[dense], h[other], |s|);
  }

  lemma RatiosAdd(a: nat, b: nat, n: nat)
    requires n > 0
    ensures (a + b) as real / n as real == a as real / n as real + b as real / n as real
  {
  }

  /** The second search may find nothing, when every bin far from the first one is empty. */
  function SomeFarBin(dense: nat, second: int): (other: nat)
    requires dense < HISTOGRAM_BINS && -1 <= second < HISTOGRAM_BINS
    requires second >= 0 ==> Distance(second, dense) >= MIN_SEPARATION_BINS
    ensures other < HISTOGRAM_BINS && Distance(other, dense) >= MIN_SEPARATION_BINS
    ensures second >= 0 ==> other == second
  {
    if second >= 0 then second else if dense >= MIN_SEPARATION_BINS then 0 else HISTOGRAM_BINS - 1
  }

  lemma PairOfBins(s: seq<Count>, k: real, zero: real, h: seq<nat>, dense: nat, other: nat)
    requires s != [] && MinOf(s) < MaxOf(s) && k > 0.0 && h == Histogram(s, MinOf(s), MaxOf(s))
    requires dense < HISTOGRAM_BINS && other < HISTOGRAM_BINS && Distance(other, dense) >= MIN_SEPARATION_BINS
    requires forall b :: 0 <= b < HISTOGRAM_BINS ==> h[b] <= h[dense]
    requires forall b :: 0 <= b < HISTOGRAM_BINS && Distance(b, dense) >= MIN_SEPARATION_BINS ==> h[b] <= h[other]
    ensures DensestPair(s, k, zero, dense, other)
    ensures var vMin, vMax := Volts(MinOf(s), k, zero), Volts(MaxOf(s), k, zero);
            LevelsFrom(s, k, zero, if TwoModes(|s|, h[dense], h[other]) then LevelsAtBins(vMin, vMax, dense, other)
                                   else Levels(vMax, vMin, true), dense, other)
  {
    hide Volts, BinVolts, MinOf, MaxOf, Share, BinCount, Histogram, TwoModes, BandStart;
    var vMin := Volts(MinOf(s), k, zero);
    var w := BinVolts(vMin, Volts(MaxOf(s), k, zero));
    SharesAreBinCounts(s, k, zero, h);
    DensestBinsAreDenser(s, k, zero, vMin, w, h, dense, other);
    ClearInCounts(s, k, zero, h, dense, other);
    LevelsOfBins(vMin, Volts(MaxOf(s), k, zero), dense, other);
  }

  lemma LevelsOfBins(vMin: real, vMax: real, a: nat, b: nat)
    ensures var w := BinVolts(vMin, vMax);
            LevelsAtBins(vMin, vMax, a, b)
            == if a < b then Levels(BandStart(vMin, w, b), BandStart(vMin, w, a), true)
               else Levels(BandStart(vMin, w, a), BandStart(vMin, w, b), true)
  {
  }

  /**
   On a record that is not flat there are a densest bin and a densest one far from
   it, such that the levels are these two bands when together they hold 5% of the samples
   and the second one 2%, and the extremes of the record are used exactly when they do not.
   */
  lemma LevelsAreReal(s: seq<Count>, k: real, zero: real) returns (dense: nat, other: nat)
    requires s != [] && MinOf(s) < MaxOf(s) && k > 0.0
    ensures DensestPair(s, k, zero, dense, other) && LevelsFrom(s, k, zero, LevelsOf(s, k, zero), dense, other)
  {
    hide Volts, BinVolts, BandStart, MinOf, MaxOf, Share, BinCount, LevelsFrom, DensestPair, TwoModes;
    var mn, mx := MinOf(s), MaxOf(s);
    var h := Histogram(s, mn, mx);
    SomeSample(s, mn, mx);
    dense := Densest(h, HISTOGRAM_BINS, 0, 0);
    var second := Densest(h, HISTOGRAM_BINS, dense, MIN_SEPARATION_BINS);
    DensestIs(h, HISTOGRAM_BINS, 0, 0);
    DensestIs(h, HISTOGRAM_BINS, dense, MIN_SEPARATION_BINS);
    other := SomeFarBin(dense, second);
    PairOfBins(s, k, zero, h, dense, other);
    EmptyIsNoMode(|s|, h[dense]);
  }

  lemma EmptyIsNoMode(count: nat, firstMax: nat)
    requires count > 0
    ensures !TwoModes(count, firstMax, 0)
  {
  }

  lemma EndsOfTheHistogram(mn: Count, mx: Count)
    requires mn < mx
    ensures Clamp(RawBin(mn, mn, mx)) == 0 && Clamp(RawBin(mx, mn, mx)) == HISTOGRAM_BINS - 1
  {
    assert (mx - mn) as real / (mx - mn) as real == 1.0;
  }

  lemma {:induction false} BinsBetween(s: seq<Count>, mn: Count, mx: Count, b: nat)
    requires mn < mx && forall c :: c in s ==> mn <= c <= mx
    ensures BinCount(s, mn, mx, 0) >= multiset(s)[mn] && BinCount(s, mn, mx, HISTOGRAM_BINS - 1) >= multiset(s)[mx]
    ensures 0 < b < HISTOGRAM_BINS - 1 ==> BinCount(s, mn, mx, b) + multiset(s)[mn] + multiset(s)[mx] <= |s|
  {
    hide RawBin, Clamp;
    if s != [] {
      var front, last := s[..|s| - 1], s[|s| - 1];
      assert s == front + [last];
      assert forall c :: c in front ==> c in s;
      BinsBetween(front, mn, mx, b);
      EndsOfTheHistogram(mn, mx);
    }
  }

  /**
   A record that is at its lowest count more often than at all the counts between the
   extremes, and at its highest too, has the extremes as its levels.
   */
  lemma RestingAtTheExtremes(s: seq<Count>, k: real, zero: real)
    requires s != [] && MinOf(s) < MaxOf(s) && k > 0.0
    requires |s| < 2 * multiset(s)[MinOf(s)] + multiset(s)[MaxOf(s)]
    requires |s| < multiset(s)[MinOf(s)] + 2 * multiset(s)[MaxOf(s)]
    ensures LevelsOf(s, k, zero) == Levels(Volts(MaxOf(s), k, zero), Volts(MinOf(s), k, zero), true)
  {
    hide Volts, MinOf, MaxOf, Share, BinCount, Histogram, LevelsOf, BandStart, BinVolts;
    var mn, mx := MinOf(s), MaxOf(s);
    var vMin, vMax, h := Volts(mn, k, zero), Volts(mx, k, zero), Histogram(s, mn, mx);
    var dense, other := LevelsAreReal(s, k, zero);
    SharesAreBinCounts(s, k, zero, h);
    forall b: nat | b < HISTOGRAM_BINS
      ensures 0 < b < HISTOGRAM_BINS - 1 ==> h[b] < h[0] && h[b] < h[HISTOGRAM_BINS - 1]
    {
      BinsBetween(s, mn, mx, b);
      BinOf(s, mn, mx, b);
      BinOf(s, mn, mx, 0);
      BinOf(s, mn, mx, HISTOGRAM_BINS - 1);
    }
    var w := BinVolts(vMin, vMax);
    var far: nat := if dense < 64 then HISTOGRAM_BINS - 1 else 0;
    assert Share(s, k, zero, vMin, w, 0) <= Share(s, k, zero, vMin, w, dense);
    RatioOrder(h[0], h[dense], |s|);
    assert Share(s, k, zero, vMin, w, far) <= Share(s, k, zero, vMin, w, other);
    RatioOrder(h[far], h[other], |s|);
    EndBands(vMin, vMax);
  }

  lemma RatioOrder(a: nat, b: nat, n: nat)
    requires n > 0 && a as real / n as real <= b as real / n as real
    ensures a <= b
  {
    if b < a {
      RatiosCompare(b + 1, a, n);
      RatiosAdd(b, 1, n);
    }
  }

  lemma EndBands(vMin: real, vMax: real)
    ensures BandStart(vMin, BinVolts(vMin, vMax), 0) == vMin
    ensures BandStart(vMin, BinVolts(vMin, vMax), HISTOGRAM_BINS - 1) == vMax
  {
  }

  /** There are levels exactly when there are samples, flat or not. */
  lemma LevelsAreValidIff(s: seq<Count>, k: real, zero: real)
    ensures LevelsOf(s, k, zero).valid <==> s != []
    ensures s != [] && MinOf(s) == MaxOf(s) ==>
      LevelsOf(s, k, zero).top == LevelsOf(s, k, zero).base == Volts(s[0], k, zero)
  {
    hide Histogram, Densest, TwoModes, Volts;
    if s != [] && MinOf(s) == MaxOf(s) {
      assert s[0] in s;
    }
  }

  /** The part of a range that the separation of two modes amounts to at least. */
  function SeparationOf(range: real): real { range * 16.0 / 127.0 }

  /** The levels are in order, inside the record's range, and 16/127 of it apart or more. */
  lemma LevelsAreOrdered(s: seq<Count>, k: real, zero: real)
    requires s != [] && MinOf(s) < MaxOf(s) && k > 0.0
    ensures var out, vMin, vMax := LevelsOf(s, k, zero), Volts(MinOf(s), k, zero), Volts(MaxOf(s), k, zero);
            && vMin <= out.base < out.top <= vMax
            && out.Amplitude() >= SeparationOf(vMax - vMin)
  {
    hide Volts, MinOf, MaxOf, Share, LevelsOf, DenserThanRest, BinVolts, BandStart;
    var out, vMin, vMax := LevelsOf(s, k, zero), Volts(MinOf(s), k, zero), Volts(MaxOf(s), k, zero);
    CoordinateIsVolts(MinOf(s), MinOf(s), MaxOf(s), k, zero);
    var dense, other := LevelsAreReal(s, k, zero);
    WholeRange(vMin, vMax);
    if ClearModes(s, k, zero, dense, other) {
      BandsAreOrdered(vMin, vMax, if dense < other then dense else other, if dense < other then other else dense);
    }
  }

  lemma WholeRange(vMin: real, vMax: real)
    requires BinVolts(vMin, vMax) > 0.0
    ensures vMin < vMax && vMax - vMin >= SeparationOf(vMax - vMin)
  {
  }

  lemma BandsAreOrdered(vMin: real, vMax: real, low: nat, high: nat)
    requires BinVolts(vMin, vMax) > 0.0 && low + MIN_SEPARATION_BINS <= high < HISTOGRAM_BINS
    ensures var w := BinVolts(vMin, vMax);
            && vMin <= BandStart(vMin, w, low) < BandStart(vMin, w, high) <= vMax
            && BandStart(vMin, w, high) - BandStart(vMin, w, low) >= SeparationOf(vMax - vMin)
  {
    var w, l, h := BinVolts(vMin, vMax), low as real, high as real;
    assert w == (vMax - vMin) / 127.0;
    var a, b := l * w, h * w;
    BandsOnALine(l, h, w, a, b);
    assert BandStart(vMin, w, low) == vMin + a && BandStart(vMin, w, high) == vMin + b;
    assert 16.0 * w == SeparationOf(vMax - vMin);
  }

  lemma BandsOnALine(l: real, h: real, w: real, a: real, b: real)
    requires w > 0.0 && 0.0 <= l && l + 16.0 <= h <= 127.0 && a == l * w && b == h * w
    ensures b - a >= 16.0 * w
    ensures 0.0 <= a && a < b
    ensures b <= 127.0 * w
  {
    FarApart(l, h, w, a, b);
    NotNegative(l, w, a);
    ScalingUp(h, 127.0, w);
    StrictlyApart(w, a, b);
  }

  lemma FarApart(l: real, h: real, w: real, a: real, b: real)
    requires w > 0.0 && l + 16.0 <= h && a == l * w && b == h * w
    ensures b - a >= 16.0 * w
  {
    var d := h - l;
    ScalingUp(16.0, d, w);
    assert d * w == b - a;
  }

  lemma NotNegative(l: real, w: real, a: real)
    requires w > 0.0 && 0.0 <= l && a == l * w
    ensures 0.0 <= a
  {
  }

  lemma StrictlyApart(w: real, a: real, b: real)
    requires w > 0.0 && b - a >= 16.0 * w
    ensures a < b
  {
  }
}
