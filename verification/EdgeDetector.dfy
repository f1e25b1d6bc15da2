/**
 Level crossings with hysteresis. A crossing counts once the signal has cleared the
 far side of the band, so the detector is a two-state machine over the samples.
 Sample counts are unbounded integers here, which covers the 16-bit ones; volts,
 levels and times are exact reals.
 */
module EdgeDetector {
  import opened Sequences

  type Count = int

  function Volts(c: Count, k: real, zero: real): real { (c as real - zero) * k }

  function VoltsOf(samples: seq<Count>, k: real, zero: real): (v: seq<real>)
    ensures |v| == |samples|
  {
    seq(|samples|, i requires 0 <= i < |samples| => Volts(samples[i], k, zero))
  }

  /** A count at the zero offset reads zero volts, and each count more reads one step more. */
  lemma VoltsAreAffine(c: Count, d: Count, k: real, zero: real)
    ensures c as real == zero ==> Volts(c, k, zero) == 0.0
    ensures Volts(d, k, zero) - Volts(c, k, zero) == (d - c) as real * k
  {
    assert (d - c) as real == d as real - c as real;
  }

  datatype Crossing = Crossing(time: real, rising: bool)

  /** The band a signal has to clear. */
  datatype Band = Band(lo: real, hi: real) {
    /** Seen from above the band (or below it), has the signal cleared the other side? */
    predicate Clears(above: bool, x: real) { if above then x <= lo else x >= hi }

    /** A sample seen from above is still over `lo`, one seen from below still under `hi`. */
    predicate Stays(above: bool, x: real) { if above then x > lo else x < hi }

    predicate Within(wide: Band) { wide.lo <= lo && hi <= wide.hi }
  }

  function BandAround(level: real, hysteresis: real): Band {
    Band(level - hysteresis * 0.5, level + hysteresis * 0.5)
  }

  /** The samples at which the machine accepts a crossing, from sample `i` on. */
  function Accepted(v: seq<real>, i: nat, above: bool, band: Band): (e: seq<nat>)
    ensures forall j :: 0 <= j < |e| ==> i <= e[j] < |v|
    decreases |v| - i
  {
    if i >= |v| then []
    else if band.Clears(above, v[i]) then [i] + Accepted(v, i + 1, !above, band)
    else Accepted(v, i + 1, above, band)
  }

  /** Where the straight line between samples e-1 and e meets the level. */
  function CrossingTime(v: seq<real>, e: nat, level: real, dt: real): real
    requires 1 <= e < |v|
  {
    var denom := v[e] - v[e - 1];
    ((e - 1) as real + if denom != 0.0 then (level - v[e - 1]) / denom else 0.0) * dt
  }

  /** When sample `n` was taken. */
  function SampleTime(n: nat, dt: real): real { n as real * dt }

  /** Which side of the band the machine is on before its j-th crossing. */
  predicate SideBefore(above: bool, j: nat) { if j % 2 == 0 then above else !above }

  /** The crossings reported for accepted samples `e`. */
  function Report(v: seq<real>, e: seq<nat>, above: bool, level: real, dt: real): (out: seq<Crossing>)
    requires forall j :: 0 <= j < |e| ==> 1 <= e[j] < |v|
    ensures |out| == |e|
  {
    seq(|e|, j requires 0 <= j < |e| => Crossing(CrossingTime(v, e[j], level, dt), !SideBefore(above, j)))
  }

  function Crossings(v: seq<real>, dt: real, level: real, hysteresis: real): seq<Crossing> {
    if |v| < 2 || hysteresis <= 0.0 then []
    else Report(v, Accepted(v, 1, v[0] > level, BandAround(level, hysteresis)), v[0] > level, level, dt)
  }

  method FindCrossings(samples: seq<Count>, k: real, zero: real, dt: real, level: real, hysteresis: real)
    returns (out: seq<Crossing>)
    ensures out == Crossings(VoltsOf(samples, k, zero), dt, level, hysteresis)
  {
    hide Accepted, CrossingTime, Report, SideBefore;
    out := [];
    if |samples| < 2 || !(hysteresis > 0.0) { return; }
    var hi := level + hysteresis * 0.5;
    var lo := level - hysteresis * 0.5;
    ghost var v, band := VoltsOf(samples, k, zero), BandAround(level, hysteresis);
    ghost var e: seq<nat> := [];
    ReportOfNothing(v, v[0] > level, level, dt);
    SideAtStart(v[0] > level);

    var prev := Volts(samples[0], k, zero);
    var above := prev > level;
    ghost var start := above;
    for i := 1 to |samples|
      invariant prev == v[i - 1] && band.Stays(above, prev)
      invariant above == SideBefore(start, |e|)
      invariant forall j :: 0 <= j < |e| ==> 1 <= e[j] < i
      invariant out == Report(v, e, start, level, dt)
      invariant e + Accepted(v, i, above, band) == Accepted(v, 1, start, band)
    {
      var cur := Volts(samples[i], k, zero);
      AcceptedStep(v, i, above, band);
      SideShifts(start, |e|);
      if !above && cur >= hi {
        var denom := cur - prev;
        var frac := if denom != 0.0 then (level - prev) / denom else 0.0;
        var time := ((i - 1) as real + frac) * dt;
        out := out + [Crossing(time, true)];
        TimeIs(v, i, level, dt, time);
        ReportSnoc(v, e, i, start, level, dt);
        Associate(e, [i], Accepted(v, i + 1, true, band));
        e, above := e + [i], true;
      } else if above && cur <= lo {
        var denom := cur - prev;
        var frac := if denom != 0.0 then (level - prev) / denom else 0.0;
        var time := ((i - 1) as real + frac) * dt;
        out := out + [Crossing(time, false)];
        TimeIs(v, i, level, dt, time);
        ReportSnoc(v, e, i, start, level, dt);
        Associate(e, [i], Accepted(v, i + 1, false, band));
        e, above := e + [i], false;
      }
      prev := cur;
    }
    NothingAccepted(v, above, band);
    assert e == Accepted(v, 1, start, band);
  }

  lemma ReportOfNothing(v: seq<real>, above: bool, level: real, dt: real)
    ensures Report(v, [], above, level, dt) == []
  {
  }

  lemma ReportSnoc(v: seq<real>, e: seq<nat>, i: nat, above: bool, level: real, dt: real)
    requires 1 <= i < |v| && forall j :: 0 <= j < |e| ==> 1 <= e[j] < |v|
    ensures Report(v, e + [i], above, level, dt)
         == Report(v, e, above, level, dt) + [Crossing(CrossingTime(v, i, level, dt), !SideBefore(above, |e|))]
  {
  }

  lemma AcceptedStep(v: seq<real>, i: nat, above: bool, band: Band)
    requires i < |v|
    ensures Accepted(v, i, above, band)
         == if band.Clears(above, v[i]) then [i] + Accepted(v, i + 1, !above, band)
            else Accepted(v, i + 1, above, band)
  {
  }

  lemma NothingAccepted(v: seq<real>, above: bool, band: Band)
    ensures Accepted(v, |v|, above, band) == []
  {
  }

  lemma TimeIs(v: seq<real>, i: nat, level: real, dt: real, time: real)
    requires 1 <= i < |v|
    requires var denom := v[i] - v[i - 1];
             time == ((i - 1) as real + if denom != 0.0 then (level - v[i - 1]) / denom else 0.0) * dt
    ensures time == CrossingTime(v, i, level, dt)
  {
  }

  // ---- the machine is greedy and greedy is optimal ------------------------------------

  /** Samples, in order from `i` on, that clear the band on alternating sides. */
  ghost predicate Alternating(v: seq<real>, s: seq<nat>, i: nat, above: bool, band: Band) {
    s == [] || (&& i <= s[0] < |v|
                && band.Clears(above, v[s[0]])
                && Alternating(v, s[1..], s[0] + 1, !above, band))
  }

  lemma {:induction false} AcceptedAlternates(v: seq<real>, i: nat, above: bool, band: Band)
    ensures Alternating(v, Accepted(v, i, above, band), i, above, band)
    decreases |v| - i
  {
    if i < |v| {
      if band.Clears(above, v[i]) {
        AcceptedAlternates(v, i + 1, !above, band);
      } else {
        AcceptedAlternates(v, i + 1, above, band);
        AlternatingEarlier(v, Accepted(v, i + 1, above, band), i, above, band);
      }
    }
  }

  lemma AlternatingEarlier(v: seq<real>, s: seq<nat>, i: nat, above: bool, band: Band)
    requires Alternating(v, s, i + 1, above, band)
    ensures Alternating(v, s, i, above, band)
  {
  }

  /**
   The machine reports as many crossings as there can be: no choice of samples that
   clear the band on alternating sides, starting on the side opposite the initial
   one, is longer.
   */
  lemma {:induction false} GreedyIsLongest(v: seq<real>, s: seq<nat>, i: nat, above: bool, band: Band)
    requires Alternating(v, s, i, above, band)
    ensures |s| <= |Accepted(v, i, above, band)|
    decreases |v| - i
  {
    if s != [] {
      if !band.Clears(above, v[i]) {
        GreedyIsLongest(v, s, i + 1, above, band);
      } else if s[0] == i {
        GreedyIsLongest(v, s[1..], i + 1, !above, band);
      } else {
        // Dropping the first choice leaves one that fits after sample i.
        AlternatingFrom(v, s[1..], s[0] + 1, i + 1, !above, band);
        GreedyIsLongest(v, s[1..], i + 1, !above, band);
      }
    }
  }

  lemma AlternatingFrom(v: seq<real>, s: seq<nat>, later: nat, i: nat, above: bool, band: Band)
    requires Alternating(v, s, later, above, band) && i <= later
    ensures Alternating(v, s, i, above, band)
  {
  }

  /**
   The crossings reported are a longest alternating choice, and the machine's own
   choice of samples is one of that length.
   */
  lemma CrossingsAreLongest(v: seq<real>, dt: real, level: real, hysteresis: real, s: seq<nat>)
    requires |v| >= 2 && hysteresis > 0.0
    ensures var above, band := v[0] > level, BandAround(level, hysteresis);
            && Alternating(v, Accepted(v, 1, above, band), 1, above, band)
            && |Accepted(v, 1, above, band)| == |Crossings(v, dt, level, hysteresis)|
            && (Alternating(v, s, 1, above, band) ==> |s| <= |Crossings(v, dt, level, hysteresis)|)
  {
    hide Accepted;
    var above, band := v[0] > level, BandAround(level, hysteresis);
    ReportLength(v, Accepted(v, 1, above, band), above, level, dt);
    AcceptedAlternates(v, 1, above, band);
    if Alternating(v, s, 1, above, band) {
      GreedyIsLongest(v, s, 1, above, band);
    }
  }

  lemma ReportLength(v: seq<real>, e: seq<nat>, above: bool, level: real, dt: real)
    requires forall j :: 0 <= j < |e| ==> 1 <= e[j] < |v|
    ensures |Report(v, e, above, level, dt)| == |e|
  {
  }

  lemma {:induction false} AlternatingInNarrower(v: seq<real>, s: seq<nat>, i: nat, above: bool, wide: Band, band: Band)
    requires band.Within(wide) && Alternating(v, s, i, above, wide)
    ensures Alternating(v, s, i, above, band)
    decreases |s|
  {
    if s != [] {
      AlternatingInNarrower(v, s[1..], s[0] + 1, !above, wide, band);
    }
  }

  /** Widening the hysteresis at the same level never adds a crossing. */
  lemma WiderBandCountsNoMore(v: seq<real>, dt: real, level: real, hysteresis: real, wider: real)
    requires 0.0 < hysteresis <= wider
    ensures |Crossings(v, dt, level, wider)| <= |Crossings(v, dt, level, hysteresis)|
  {
    if |v| >= 2 {
      hide Accepted, Crossings;
      var wide, band, above := BandAround(level, wider), BandAround(level, hysteresis), v[0] > level;
      var s := Accepted(v, 1, above, wide);
      CrossingsAreLongest(v, dt, level, wider, s);
      AlternatingInNarrower(v, s, 1, above, wide, band);
      CrossingsAreLongest(v, dt, level, hysteresis, s);
    }
  }

  /** `kept` picks samples of a record in order. */
  ghost predicate Picks(kept: seq<nat>, n: nat) {
    && (forall j :: 0 <= j < |kept| ==> kept[j] < n)
    && forall i, j :: 0 <= i < j < |kept| ==> kept[i] < kept[j]
  }

  function Pick(v: seq<real>, kept: seq<nat>): (w: seq<real>)
    requires forall j :: 0 <= j < |kept| ==> kept[j] < |v|
    ensures |w| == |kept|
  {
    seq(|kept|, j requires 0 <= j < |kept| => v[kept[j]])
  }

  function PickIndices(s: seq<nat>, kept: seq<nat>): (r: seq<nat>)
    requires forall j :: 0 <= j < |s| ==> s[j] < |kept|
    ensures |r| == |s|
  {
    seq(|s|, j requires 0 <= j < |s| => kept[s[j]])
  }

  lemma {:induction false} AlternatingInPicked(v: seq<real>, kept: seq<nat>, s: seq<nat>, i: nat, at: nat,
                                               above: bool, band: Band)
    requires Picks(kept, |v|) && Alternating(Pick(v, kept), s, i, above, band)
    requires i < |kept| ==> at <= kept[i]
    ensures forall j :: 0 <= j < |s| ==> s[j] < |kept|
    ensures Alternating(v, PickIndices(s, kept), at, above, band)
    decreases |s|
  {
    if s != [] {
      var first, rest := s[0], s[1..];
      assert i == first || kept[i] < kept[first];
      AlternatingInPicked(v, kept, rest, first + 1, kept[first] + 1, !above, band);
      assert forall j :: 0 < j < |s| ==> s[j] == rest[j - 1];
      assert PickIndices(s, kept)[1..] == PickIndices(rest, kept);
    }
  }

  /** Deleting samples other than the first never adds a crossing. */
  lemma FewerSamplesCountNoMore(v: seq<real>, kept: seq<nat>, dt: real, level: real, hysteresis: real)
    requires Picks(kept, |v|) && kept != [] && kept[0] == 0
    ensures |Crossings(Pick(v, kept), dt, level, hysteresis)| <= |Crossings(v, dt, level, hysteresis)|
  {
    var w := Pick(v, kept);
    if |w| >= 2 && hysteresis > 0.0 {
      hide Accepted, Crossings;
      assert kept[0] < kept[1] < |v|;
      var above, band := v[0] > level, BandAround(level, hysteresis);
      var s := Accepted(w, 1, above, band);
      CrossingsAreLongest(w, dt, level, hysteresis, s);
      AlternatingInPicked(v, kept, s, 1, 1, above, band);
      CrossingsAreLongest(v, dt, level, hysteresis, PickIndices(s, kept));
    }
  }

  // ---- where the interpolated times lie -------------------------------------------------

  /** A sample clears the band seen from one side, and the sample before it had not. */
  predicate ClearsAt(v: seq<real>, e: nat, above: bool, band: Band)
    requires 1 <= e < |v|
  {
    band.Clears(above, v[e]) && band.Stays(above, v[e - 1])
  }

  ghost predicate WellAccepted(v: seq<real>, e: seq<nat>, above: bool, band: Band)
    requires forall j :: 0 <= j < |e| ==> 1 <= e[j] < |v|
  {
    && (forall j :: 0 <= j < |e| ==> ClearsAt(v, e[j], SideBefore(above, j), band))
    && forall j :: 0 < j < |e| ==> e[j - 1] < e[j]
  }

  lemma SideShifts(above: bool, j: nat)
    ensures SideBefore(above, j + 1) == SideBefore(!above, j) == !SideBefore(above, j)
  {
  }

  lemma PrependAccepted(v: seq<real>, i: nat, rest: seq<nat>, above: bool, band: Band)
    requires 1 <= i < |v| && ClearsAt(v, i, above, band)
    requires forall j :: 0 <= j < |rest| ==> i < rest[j] < |v|
    requires WellAccepted(v, rest, !above, band)
    ensures WellAccepted(v, [i] + rest, above, band)
  {
  }

  lemma SideAtStart(above: bool)
    ensures SideBefore(above, 0) == above
  {
  }

  /** The sides alternate over the accepted samples, which come in order. */
  lemma {:induction false} AcceptedSamples(v: seq<real>, i: nat, above: bool, band: Band)
    requires 1 <= i && (i <= |v| ==> band.Stays(above, v[i - 1])) && band.lo < band.hi
    ensures WellAccepted(v, Accepted(v, i, above, band), above, band)
    decreases |v| - i
  {
    if i < |v| {
      if band.Clears(above, v[i]) {
        AcceptedSamples(v, i + 1, !above, band);
        PrependAccepted(v, i, Accepted(v, i + 1, !above, band), above, band);
      } else {
        AcceptedSamples(v, i + 1, above, band);
      }
    }
  }

  /** The sample before a crossing is not past the level already. */
  predicate Bracketed(v: seq<real>, e: nat, above: bool, level: real)
    requires 1 <= e < |v|
  {
    if above then v[e - 1] >= level else v[e - 1] <= level
  }

  lemma Fraction(a: real, b: real, level: real)
    requires a != b
    ensures var f := (level - a) / (b - a);
            && f * (b - a) == level - a
            && ((a < b && level < b) || (b < a && level > b) ==> f < 1.0)
            && ((a < b && level > a) || (b < a && level < a) ==> f > 0.0)
            && (a < b ==> (f >= 0.0 <==> level >= a))
            && (b < a ==> (f >= 0.0 <==> level <= a))
  {
    var d, f := b - a, (level - a) / (b - a);
    assert f * d == level - a;
  }

  /**
   One crossing: the denominator is never zero and the time is strictly before the
   accepting sample. It is not before the sample preceding that one if and only if
   that sample was on the near side of the level.
   */
  lemma CrossingTimeBounds(v: seq<real>, e: nat, above: bool, level: real, band: Band, dt: real)
    requires 1 <= e < |v| && dt > 0.0 && band.lo < level < band.hi
    requires ClearsAt(v, e, above, band)
    ensures v[e] != v[e - 1]
    ensures CrossingTime(v, e, level, dt) < SampleTime(e, dt)
    ensures SampleTime(e - 1, dt) <= CrossingTime(v, e, level, dt) <==> Bracketed(v, e, above, level)
  {
    Fraction(v[e - 1], v[e], level);
    var f := (level - v[e - 1]) / (v[e] - v[e - 1]);
    var n := (e - 1) as real;
    PlaceInStep(n, f, dt);
    assert e as real == n + 1.0;
    assert CrossingTime(v, e, level, dt) == (n + f) * dt;
    assert SampleTime(e, dt) == (n + 1.0) * dt;
  }

  lemma PlaceInStep(n: real, f: real, dt: real)
    requires dt > 0.0 && f < 1.0
    ensures (n + f) * dt < (n + 1.0) * dt
    ensures n * dt <= (n + f) * dt <==> f >= 0.0
  {
  }

  lemma Scaling(x: real, y: real, dt: real)
    requires x < y && dt > 0.0
    ensures x * dt < y * dt
  {
  }

  lemma ScalingUp(x: real, y: real, dt: real)
    requires x <= y && dt >= 0.0
    ensures x * dt <= y * dt
  {
  }

  /** Reported times are strictly increasing. */
  predicate TimesIncrease(out: seq<Crossing>) {
    forall i, j :: 0 <= i < j < |out| ==> out[i].time < out[j].time
  }

  /** Directions alternate. */
  predicate DirectionsAlternate(out: seq<Crossing>) {
    forall j :: 0 < j < |out| ==> out[j].rising != out[j - 1].rising
  }

  lemma ReportAlternates(v: seq<real>, e: seq<nat>, above: bool, level: real, dt: real)
    requires forall j :: 0 <= j < |e| ==> 1 <= e[j] < |v|
    ensures DirectionsAlternate(Report(v, e, above, level, dt))
  {
  }

  ghost predicate AllBracketed(v: seq<real>, e: seq<nat>, above: bool, level: real) {
    forall j :: 0 <= j < |e| ==> 1 <= e[j] < |v| && Bracketed(v, e[j], SideBefore(above, j), level)
  }

  /** Reported directions alternate, and each says on which side the signal cleared the band. */
  lemma CrossingsAlternate(v: seq<real>, dt: real, level: real, hysteresis: real)
    ensures DirectionsAlternate(Crossings(v, dt, level, hysteresis))
    ensures |v| >= 2 && hysteresis > 0.0 ==>
      var band := BandAround(level, hysteresis);
      var e, out := Accepted(v, 1, v[0] > level, band), Crossings(v, dt, level, hysteresis);
      forall j :: 0 <= j < |out| ==> (out[j].rising <==> v[e[j]] >= band.hi) && (!out[j].rising <==> v[e[j]] <= band.lo)
  {
    if |v| >= 2 && hysteresis > 0.0 {
      hide Accepted, CrossingTime;
      var above, band := v[0] > level, BandAround(level, hysteresis);
      ReportAlternates(v, Accepted(v, 1, above, band), above, level, dt);
      AcceptedSamples(v, 1, above, band);
    }
  }

  /** No time is before the sample that precedes its crossing, exactly when all are bracketed. */
  lemma InPlaceIffBracketed(v: seq<real>, level: real, hysteresis: real, dt: real)
    requires |v| >= 2 && hysteresis > 0.0 && dt > 0.0
    ensures var above := v[0] > level;
            var e, out := Accepted(v, 1, above, BandAround(level, hysteresis)), Crossings(v, dt, level, hysteresis);
            (forall j :: 0 <= j < |out| ==> SampleTime(e[j] - 1, dt) <= out[j].time)
            <==> AllBracketed(v, e, above, level)
  {
    hide Accepted, CrossingTime, Bracketed, SampleTime;
    var above, band := v[0] > level, BandAround(level, hysteresis);
    var e, out := Accepted(v, 1, above, band), Crossings(v, dt, level, hysteresis);
    AcceptedSamples(v, 1, above, band);
    forall j | 0 <= j < |out|
      ensures SampleTime(e[j] - 1, dt) <= out[j].time <==> Bracketed(v, e[j], SideBefore(above, j), level)
    {
      CrossingTimeBounds(v, e[j], SideBefore(above, j), level, band, dt);
    }
  }

  /** With every crossing bracketed, times lie inside their sample pairs and strictly increase. */
  lemma BracketedTimesIncrease(v: seq<real>, level: real, hysteresis: real, dt: real)
    requires |v| >= 2 && hysteresis > 0.0 && dt > 0.0
    requires AllBracketed(v, Accepted(v, 1, v[0] > level, BandAround(level, hysteresis)), v[0] > level, level)
    ensures var out := Crossings(v, dt, level, hysteresis);
            var e := Accepted(v, 1, v[0] > level, BandAround(level, hysteresis));
            && |out| == |e|
            && TimesIncrease(out)
            && forall j :: 0 <= j < |e| ==> SampleTime(e[j] - 1, dt) <= out[j].time < SampleTime(e[j], dt)
  {
    hide Accepted, CrossingTime, Bracketed, SampleTime;
    var above, band := v[0] > level, BandAround(level, hysteresis);
    var e, out := Accepted(v, 1, above, band), Crossings(v, dt, level, hysteresis);
    AcceptedSamples(v, 1, above, band);
    forall j | 0 <= j < |e|
      ensures SampleTime(e[j] - 1, dt) <= out[j].time < SampleTime(e[j], dt)
    {
      CrossingTimeBounds(v, e[j], SideBefore(above, j), level, band, dt);
    }
    forall i, j | 0 <= i < j < |out| ensures out[i].time < out[j].time {
      Increasing(e, i, j);
      LaterSample(e[i], e[j] - 1, dt);
    }
  }

  lemma LaterSample(m: nat, n: nat, dt: real)
    requires m <= n && dt >= 0.0
    ensures SampleTime(m, dt) <= SampleTime(n, dt)
  {
  }

  lemma {:induction false} Increasing(e: seq<nat>, i: nat, j: nat)
    requires forall m :: 0 < m < |e| ==> e[m - 1] < e[m]
    requires i < j < |e|
    ensures e[i] < e[j]
    decreases j
  {
    if i < j - 1 {
      Increasing(e, i, j - 1);
    }
  }

  /**
   Without the condition a crossing can be placed before the start of the record, and
   before the crossing that precedes it: a signal that creeps through the band and
   then clears it by a hair.
   */
  lemma CreepingSignalGoesBackInTime()
    ensures Crossings([-10.0, 10.0, -9.0, -10.0], 1.0, 0.0, 20.0) == [Crossing(0.5, true), Crossing(-7.0, false)]
  {
    var v, band := [-10.0, 10.0, -9.0, -10.0], BandAround(0.0, 20.0);
    assert band == Band(-10.0, 10.0);
    assert Accepted(v, 3, true, band) == [3];
    assert Accepted(v, 1, false, band) == [1, 3];
    assert CrossingTime(v, 1, 0.0, 1.0) == 0.5;
    assert CrossingTime(v, 3, 0.0, 1.0) == -7.0;
  }

  /**
   A bracketed crossing is a step through the level, in the direction reported, at
   the time reported.
   */
  lemma BracketedCrossingIsAStep(v: seq<real>, level: real, hysteresis: real, dt: real, j: nat) returns (e: nat)
    requires |v| >= 2 && hysteresis > 0.0 && dt > 0.0
    requires AllBracketed(v, Accepted(v, 1, v[0] > level, BandAround(level, hysteresis)), v[0] > level, level)
    requires j < |Crossings(v, dt, level, hysteresis)|
    ensures var c := Crossings(v, dt, level, hysteresis)[j];
            && 1 <= e < |v| && c.time == CrossingTime(v, e, level, dt)
            && SampleTime(e - 1, dt) <= c.time < SampleTime(e, dt)
            && if c.rising then v[e - 1] <= level < v[e] else v[e - 1] >= level > v[e]
  {
    hide CrossingTime, SampleTime, Accepted, ClearsAt, Bracketed;
    var above, band := v[0] > level, BandAround(level, hysteresis);
    var accepted := Accepted(v, 1, above, band);
    AcceptedSamples(v, 1, above, band);
    BracketedTimesIncrease(v, level, hysteresis, dt);
    e := accepted[j];
    StepsThrough(v, e, SideBefore(above, j), level, band);
  }

  lemma StepsThrough(v: seq<real>, e: nat, above: bool, level: real, band: Band)
    requires 1 <= e < |v| && band.lo < level < band.hi && ClearsAt(v, e, above, band) && Bracketed(v, e, above, level)
    ensures if above then v[e - 1] >= level > v[e] else v[e - 1] <= level < v[e]
  {
  }
}
