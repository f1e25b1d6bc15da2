/**
 The amplitude measurements, taken in one pass over the counts and scaled once at
 the end. The root mean square is modelled by its square.
 */
module Statistics {
  import opened Sequences
  import opened EdgeDetector
  import opened LevelFinder

  function SquaresOf(v: seq<real>): real {
    if v == [] then 0.0 else SquaresOf(v[..|v| - 1]) + v[|v| - 1] * v[|v| - 1]
  }

  /** Distances from zero, in counts. */
  function Centred(s: seq<Count>, zero: real): (d: seq<real>)
    ensures |d| == |s|
  {
    seq(|s|, i requires 0 <= i < |s| => s[i] as real - zero)
  }

  /** The mean and the mean square of some volts, per the textbook definition. */
  predicate AreMeans(v: seq<real>, average: real, rmsSquared: real) {
    average * |v| as real == SumOf(v) && rmsSquared * |v| as real == SquaresOf(v)
  }

  datatype Amplitudes = Amplitudes(min: real, max: real, average: real, rmsSquared: real)

  method MeasureAmplitudes(samples: seq<Count>, k: real, zero: real) returns (a: Amplitudes)
    requires samples != []
    ensures a.min == Volts(MinOf(samples), k, zero) && a.max == Volts(MaxOf(samples), k, zero)
    ensures AreMeans(VoltsOf(samples, k, zero), a.average, a.rmsSquared)
  {
    hide Volts, VoltsOf, MinOf, MaxOf, SumOf, SquaresOf, Centred;
    var mn, mx, sum, sumSq := OnePass(samples, zero);
    var n := |samples| as real;
    var average, rmsSquared := (sum / n) * k, (sumSq / n) * (k * k);
    ScaledSums(samples, k, zero);
    MeanScales(average, sum, n, k);
    MeanScales(rmsSquared, sumSq, n, k * k);
    a := Amplitudes(Volts(mn, k, zero), Volts(mx, k, zero), average, rmsSquared);
  }

  method OnePass(samples: seq<Count>, zero: real) returns (mn: Count, mx: Count, sum: real, sumSq: real)
    requires samples != []
    ensures mn == MinOf(samples) && mx == MaxOf(samples)
    ensures sum == SumOf(Centred(samples, zero)) && sumSq == SquaresOf(Centred(samples, zero))
  {
    hide MinOf, MaxOf, SumOf, SquaresOf, Centred;
    mn, mx, sum, sumSq := samples[0], samples[0], 0.0, 0.0;
    NothingYet(samples, zero);
    for i := 0 to |samples|
      invariant i == 0 ==> mn == mx == samples[0]
      invariant i > 0 ==> mn == MinOf(samples[..i]) && mx == MaxOf(samples[..i])
      invariant sum == SumOf(Centred(samples[..i], zero))
      invariant sumSq == SquaresOf(Centred(samples[..i], zero))
    {
      OneMoreSample(samples, i, zero);
      var c := samples[i];
      mn := if c < mn then c else mn;
      mx := if c > mx then c else mx;
      var d := c as real - zero;
      sum := sum + d;
      sumSq := sumSq + d * d;
    }
    assert samples[..|samples|] == samples;
  }

  lemma NothingYet(s: seq<Count>, zero: real)
    ensures SumOf(Centred(s[..0], zero)) == SquaresOf(Centred(s[..0], zero)) == 0.0
  {
  }

  lemma OneMoreSample(s: seq<Count>, i: nat, zero: real)
    requires i < |s|
    ensures var now, next, c := s[..i], s[..i + 1], s[i];
            var d := c as real - zero;
            && MinOf(next) == (if i > 0 && MinOf(now) <= c then MinOf(now) else c)
            && MaxOf(next) == (if i > 0 && MaxOf(now) >= c then MaxOf(now) else c)
            && SumOf(Centred(next, zero)) == SumOf(Centred(now, zero)) + d
            && SquaresOf(Centred(next, zero)) == SquaresOf(Centred(now, zero)) + d * d
  {
    hide MinOf, MaxOf, SumOf, SquaresOf;
    ExtremesSnoc(s, i);
    var d, x := Centred(s[..i], zero), s[i] as real - zero;
    assert Centred(s[..i + 1], zero) == d + [x];
    SumsSnoc(d, x);
  }

  lemma ExtremesSnoc(s: seq<Count>, i: nat)
    requires i < |s|
    ensures var now, next, c := s[..i], s[..i + 1], s[i];
            && MinOf(next) == (if i > 0 && MinOf(now) <= c then MinOf(now) else c)
            && MaxOf(next) == (if i > 0 && MaxOf(now) >= c then MaxOf(now) else c)
  {
    assert s[..i + 1][..i] == s[..i];
  }

  lemma SumsSnoc(d: seq<real>, x: real)
    ensures SumOf(d + [x]) == SumOf(d) + x && SquaresOf(d + [x]) == SquaresOf(d) + x * x
  {
  }

  lemma MeanScales(mean: real, sum: real, n: real, k: real)
    requires n != 0.0 && mean == (sum / n) * k
    ensures mean * n == k * sum
  {
  }

  /** Scaling the sums of the counts gives the sums of the volts. */
  lemma ScaledSums(s: seq<Count>, k: real, zero: real)
    ensures SumOf(VoltsOf(s, k, zero)) == k * SumOf(Centred(s, zero))
    ensures SquaresOf(VoltsOf(s, k, zero)) == k * k * SquaresOf(Centred(s, zero))
  {
    ScaledSum(Centred(s, zero), VoltsOf(s, k, zero), k);
    ScaledSquares(Centred(s, zero), VoltsOf(s, k, zero), k);
  }

  lemma {:induction false} ScaledSum(d: seq<real>, v: seq<real>, k: real)
    requires |d| == |v| && forall i :: 0 <= i < |d| ==> v[i] == d[i] * k
    ensures SumOf(v) == k * SumOf(d)
  {
    if d != [] {
      ScaledSum(d[..|d| - 1], v[..|v| - 1], k);
    }
  }

  lemma {:induction false} ScaledSquares(d: seq<real>, v: seq<real>, k: real)
    requires |d| == |v| && forall i :: 0 <= i < |d| ==> v[i] == d[i] * k
    ensures SquaresOf(v) == k * k * SquaresOf(d)
  {
    if d != [] {
      ScaledSquares(d[..|d| - 1], v[..|v| - 1], k);
    }
  }

  // ---- bounds ---------------------------------------------------------------------------

  lemma {:induction false} SumIsBounded(v: seq<real>, lo: real, hi: real)
    requires forall i :: 0 <= i < |v| ==> lo <= v[i] <= hi
    ensures lo * |v| as real <= SumOf(v) <= hi * |v| as real
  {
    if v != [] {
      var front := v[..|v| - 1];
      SumIsBounded(front, lo, hi);
      OneMore(lo, |front|);
      OneMore(hi, |front|);
    }
  }

  lemma {:induction false} SquaresAreBounded(v: seq<real>, most: real)
    requires forall i :: 0 <= i < |v| ==> v[i] * v[i] <= most
    ensures SquaresOf(v) <= most * |v| as real
  {
    if v != [] {
      var front := v[..|v| - 1];
      SquaresAreBounded(front, most);
      OneMore(most, |front|);
    }
  }

  lemma OneMore(x: real, n: nat)
    ensures x * (n + 1) as real == x * n as real + x
  {
  }

  function LargerSquare(x: real, y: real): real { if x * x < y * y then y * y else x * x }

  lemma LargerSquareBounds(x: real, y: real)
    ensures x * x <= LargerSquare(x, y) && y * y <= LargerSquare(x, y)
  {
  }

  lemma SquareIsBounded(x: real, lo: real, hi: real)
    requires lo <= x <= hi
    ensures x * x <= LargerSquare(lo, hi)
  {
    hide LargerSquare;
    LargerSquareBounds(lo, hi);
    if x >= 0.0 {
      SquareGrows(x, hi);
    } else {
      SquareGrows(-x, -lo);
      OppositeSquare(x);
      OppositeSquare(lo);
    }
  }

  lemma SquareGrows(x: real, y: real)
    requires 0.0 <= x <= y
    ensures x * x <= y * y
  {
  }

  lemma OppositeSquare(x: real)
    ensures (-x) * (-x) == x * x
  {
  }

  /** The sum of the squared distances of `v` from x. */
  function Spread(v: seq<real>, x: real): real {
    if v == [] then 0.0 else Spread(v[..|v| - 1], x) + (v[|v| - 1] - x) * (v[|v| - 1] - x)
  }

  lemma {:induction false} SpreadIsNotNegative(v: seq<real>, x: real)
    ensures Spread(v, x) >= 0.0
  {
    if v != [] {
      SpreadIsNotNegative(v[..|v| - 1], x);
      SquareIsNotNegative(v[|v| - 1] - x);
    }
  }

  lemma SquareIsNotNegative(x: real)
    ensures x * x >= 0.0
  {
  }

  /** The expansion of n squared distances from x, in terms of the sums of the values. */
  predicate IsExpansion(spread: real, squares: real, sum: real, n: real, x: real) {
    spread == squares - 2.0 * x * sum + n * (x * x)
  }

  lemma {:induction false} SpreadExpands(v: seq<real>, x: real)
    ensures IsExpansion(Spread(v, x), SquaresOf(v), SumOf(v), |v| as real, x)
  {
    if v == [] {
    } else {
      hide IsExpansion, Spread, SquaresOf, SumOf;
      var front, y := v[..|v| - 1], v[|v| - 1];
      SpreadExpands(front, x);
      LastTerms(v, x);
      assert |v| as real == |front| as real + 1.0;
      ExpandOne(Spread(front, x), SquaresOf(front), SumOf(front), |front| as real, x, y);
    }
  }

  lemma LastTerms(v: seq<real>, x: real)
    requires v != []
    ensures var front, y := v[..|v| - 1], v[|v| - 1];
            && Spread(v, x) == Spread(front, x) + (y - x) * (y - x)
            && SquaresOf(v) == SquaresOf(front) + y * y
            && SumOf(v) == SumOf(front) + y
  {
  }

  lemma ExpandOne(spread: real, squares: real, sum: real, n: real, x: real, y: real)
    requires IsExpansion(spread, squares, sum, n, x)
    ensures IsExpansion(spread + (y - x) * (y - x), squares + y * y, sum + y, n + 1.0, x)
  {
  }

  /** What the amplitude measurements say of each other, for every record and scale k >= 0. */
  lemma AmplitudesAreConsistent(s: seq<Count>, k: real, zero: real, average: real, rmsSquared: real)
    requires s != [] && k >= 0.0
    requires AreMeans(VoltsOf(s, k, zero), average, rmsSquared)
    ensures var lo, hi := Volts(MinOf(s), k, zero), Volts(MaxOf(s), k, zero);
            && lo <= average <= hi
            && average * average <= rmsSquared <= LargerSquare(lo, hi)
  {
    hide Volts, VoltsOf, MinOf, MaxOf, AreMeans, LargerSquare;
    var v := VoltsOf(s, k, zero);
    var lo, hi := Volts(MinOf(s), k, zero), Volts(MaxOf(s), k, zero);
    AllWithinExtremes(s, k, zero);
    MeansAreBounded(v, lo, hi, average, rmsSquared);
  }

  lemma AverageIsBounded(v: seq<real>, lo: real, hi: real, average: real)
    requires v != [] && forall i :: 0 <= i < |v| ==> lo <= v[i] <= hi
    requires average * |v| as real == SumOf(v)
    ensures lo <= average <= hi
  {
    hide SumOf;
    SumIsBounded(v, lo, hi);
    Cancel(lo, average, |v| as real);
    Cancel(average, hi, |v| as real);
  }

  lemma MeansAreBounded(v: seq<real>, lo: real, hi: real, average: real, rmsSquared: real)
    requires v != [] && forall i :: 0 <= i < |v| ==> lo <= v[i] <= hi
    requires AreMeans(v, average, rmsSquared)
    ensures lo <= average <= hi
    ensures average * average <= rmsSquared <= LargerSquare(lo, hi)
  {
    hide SumOf, SquaresOf, LargerSquare;
    var most := LargerSquare(lo, hi);
    AverageIsBounded(v, lo, hi, average);
    forall i | 0 <= i < |v| ensures v[i] * v[i] <= most {
      SquareIsBounded(v[i], lo, hi);
    }
    SquaresAreBounded(v, most);
    Cancel(rmsSquared, most, |v| as real);
    MeanSquared(v, average, rmsSquared);
  }

  lemma MeanSquared(v: seq<real>, average: real, rmsSquared: real)
    requires v != [] && average * |v| as real == SumOf(v) && rmsSquared * |v| as real == SquaresOf(v)
    ensures average * average <= rmsSquared
  {
    hide SumOf, SquaresOf, Spread, IsExpansion;
    SpreadExpands(v, average);
    SpreadIsNotNegative(v, average);
    ExpansionAtMean(Spread(v, average), SquaresOf(v), SumOf(v), |v| as real, average, rmsSquared);
  }

  lemma ExpansionAtMean(spread: real, squares: real, sum: real, n: real, mean: real, meanSquare: real)
    requires IsExpansion(spread, squares, sum, n, mean) && spread >= 0.0 && n > 0.0
    requires mean * n == sum && meanSquare * n == squares
    ensures mean * mean <= meanSquare
  {
  }

  lemma AllWithinExtremes(s: seq<Count>, k: real, zero: real)
    requires s != [] && k >= 0.0
    ensures var v := VoltsOf(s, k, zero);
            forall i :: 0 <= i < |v| ==> Volts(MinOf(s), k, zero) <= v[i] <= Volts(MaxOf(s), k, zero)
  {
    hide Volts, MinOf, MaxOf;
    var v := VoltsOf(s, k, zero);
    forall i | 0 <= i < |v| ensures Volts(MinOf(s), k, zero) <= v[i] <= Volts(MaxOf(s), k, zero) {
      assert s[i] in s;
      WithinExtremes(s, s[i], k, zero);
    }
  }

  lemma WithinExtremes(s: seq<Count>, c: Count, k: real, zero: real)
    requires c in s && k >= 0.0
    ensures Volts(MinOf(s), k, zero) <= Volts(c, k, zero) <= Volts(MaxOf(s), k, zero)
  {
    hide Volts;
    VoltsIncrease(MinOf(s), c, k, zero);
    VoltsIncrease(c, MaxOf(s), k, zero);
  }

  lemma VoltsIncrease(c: Count, d: Count, k: real, zero: real)
    requires c <= d && k >= 0.0
    ensures Volts(c, k, zero) <= Volts(d, k, zero)
  {
  }

  lemma Cancel(x: real, y: real, n: real)
    requires n > 0.0 && x * n <= y * n
    ensures x <= y
  {
  }
}
