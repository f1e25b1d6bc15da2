/**
 All measurements of one plane: amplitude, reference levels, and the timing that is
 measured between them.
 */
module MeasurementEngine {
  import opened EdgeDetector
  import opened LevelFinder
  import opened Statistics
  import opened PulseTiming
  import opened EdgeTiming

  const HYSTERESIS_FRACTION: real := 0.10
  const RISE_LOW: real := 0.10
  const RISE_HIGH: real := 0.90

  /** The samples a window selects; a count of 0 means to the end. */
  function View(samples: seq<Count>, first: nat, count: nat): (s: seq<Count>)
    ensures first >= |samples| ==> s == []
    ensures first < |samples| ==>
      |s| == if count == 0 || first + count > |samples| then |samples| - first else count
    ensures forall i :: 0 <= i < |s| ==> first + i < |samples| && s[i] == samples[first + i]
  {
    var from := if first < |samples| then first else |samples|;
    var rest := |samples| - from;
    var n := if count == 0 then rest else if count < rest then count else rest;
    samples[from..from + n]
  }

  datatype Timing = Timing(period: Reading, frequency: Reading, duty: Reading, rise: Reading, fall: Reading)

  const NO_TIMING: Timing := Timing(Invalid, Invalid, Invalid, Invalid, Invalid)

  datatype Report = NoData | Report(amplitudes: Amplitudes, levels: Levels, timing: Timing)

  /** The crossings the timing is taken from. */
  function TimedCrossings(s: seq<Count>, k: real, zero: real, dt: real): (all: seq<Crossing>)
    ensures s != [] ==> |all| <= |TimedSamples(s, k, zero)|
  {
    var levels := LevelsOf(s, k, zero);
    Crossings(VoltsOf(s, k, zero), dt, levels.Mid(), levels.Amplitude() * HYSTERESIS_FRACTION)
  }

  function TimedBand(levels: Levels): Band {
    BandAround(levels.Mid(), levels.Amplitude() * HYSTERESIS_FRACTION)
  }

  /** The samples at which the crossings the timing is taken from are accepted. */
  function TimedSamples(s: seq<Count>, k: real, zero: real): (e: seq<nat>)
    requires s != []
    ensures forall j :: 0 <= j < |e| ==> 1 <= e[j] < |s|
  {
    var v, levels := VoltsOf(s, k, zero), LevelsOf(s, k, zero);
    Accepted(v, 1, v[0] > levels.Mid(), TimedBand(levels))
  }

  method MeasureAll(samples: seq<Count>, first: nat, count: nat, k: real, zero: real, dt: real)
    returns (r: Report)
    ensures var s := View(samples, first, count);
            && (r.NoData? <==> first >= |samples|)
            && (forall i :: 0 <= i < |s| ==> first + i < |samples| && s[i] == samples[first + i])
            && (s != [] ==> ReportIsSound(r, s, k, zero, dt))
  {
    var s := View(samples, first, count);
    if s == [] { return NoData; }
    r := MeasureView(s, k, zero, dt);
  }

  /** What a report says about the samples it was made from. */
  ghost predicate ReportIsSound(r: Report, s: seq<Count>, k: real, zero: real, dt: real)
    requires s != []
  {
    && r.Report?
    && r.amplitudes.min == Volts(MinOf(s), k, zero) && r.amplitudes.max == Volts(MaxOf(s), k, zero)
    && AreMeans(VoltsOf(s, k, zero), r.amplitudes.average, r.amplitudes.rmsSquared)
    && r.levels == LevelsOf(s, k, zero)
    && IsTiming(r.timing, VoltsOf(s, k, zero), TimedCrossings(s, k, zero, dt), r.levels, dt)
  }

  method MeasureView(s: seq<Count>, k: real, zero: real, dt: real) returns (r: Report)
    requires s != []
    ensures ReportIsSound(r, s, k, zero, dt)
  {
    hide LevelsOf, MinOf, MaxOf, VoltsOf, AreMeans, Crossings, IsTiming, Volts;
    var amplitudes := MeasureAmplitudes(s, k, zero);
    var levels := FindLevels(s, k, zero);
    var mid, hysteresis := levels.Mid(), levels.Amplitude() * HYSTERESIS_FRACTION;
    var crossings := FindCrossings(s, k, zero, dt, mid, hysteresis);
    var timing := MeasureTiming(VoltsOf(s, k, zero), crossings, levels, dt);
    r := Report(amplitudes, levels, timing);
  }

  /** A record with no amplitude has no frequency, duty or edges, only a level. */
  lemma FlatRecordHasNoTiming(r: Report, s: seq<Count>, k: real, zero: real, dt: real)
    requires s != [] && MinOf(s) == MaxOf(s) && ReportIsSound(r, s, k, zero, dt)
    ensures r.timing == NO_TIMING
    ensures r.levels.valid && r.levels.top == r.levels.base == r.amplitudes.min == r.amplitudes.max
  {
  }

  /** A sample interval of zero, which a header has by default, leaves nothing to time. */
  lemma ZeroIntervalHasNoTiming(r: Report, s: seq<Count>, k: real, zero: real)
    requires s != [] && ReportIsSound(r, s, k, zero, 0.0)
    ensures r.timing == NO_TIMING
  {
    hide LevelsOf, MinOf, MaxOf, VoltsOf, AreMeans, Volts, TimesOf, PossibleMedian, Crossings;
    var all := TimedCrossings(s, k, zero, 0.0);
    AllAtZero(s, k, zero);
    var rising := |TimesOf(all, true)| >= 2;
    var times := TimesOf(all, rising);
    if |times| >= 2 {
      forall i | 0 <= i < |times| ensures times[i] == 0.0 {
        TimesComeFromCrossings(all, rising, i);
      }
      var m :| PossibleMedian(Gaps(times), m) && PeriodFrom(m, r.timing.period, r.timing.frequency);
      MedianIsAtMost(Gaps(times), m, 0.0);
    }
  }

  lemma AllAtZero(s: seq<Count>, k: real, zero: real)
    ensures forall j :: 0 <= j < |TimedCrossings(s, k, zero, 0.0)| ==> TimedCrossings(s, k, zero, 0.0)[j].time == 0.0
  {
    hide LevelsOf, VoltsOf, Accepted;
  }

  /** The 10% and 90% points of base and top: the one an edge leaves, and the one it reaches. */
  function Near(levels: Levels, rising: bool): real {
    levels.base + levels.Amplitude() * if rising then RISE_LOW else RISE_HIGH
  }

  function Far(levels: Levels, rising: bool): real { Near(levels, !rising) }

  /**
   Converting a time to a sample index is defined in C++ for positions after minus one only,
   and a time over a sample interval of zero is no number.
   */
  predicate StartIsDefined(t: real, dt: real) { dt != 0.0 && t / dt > -1.0 }

  /** Where the search from a crossing at `t` may start; a conversion that is not defined gives any index. */
  ghost predicate StartsAt(mid: nat, t: real, dt: real, count: nat)
    requires count > 0
  {
    mid < count && (StartIsDefined(t, dt) ==> mid == SampleBefore(t, dt, count))
  }

  /**
   What is timed for one direction: from the sample at or before its first crossing,
   back to the level an edge leaves and forwards to the one it reaches. These need not
   be the ends of that crossing's own edge: see EdgeOfReportIsOwnIff.
   */
  ghost predicate IsEdgeReading(r: Reading, v: seq<real>, times: seq<real>, levels: Levels, rising: bool, dt: real)
    requires v != []
  {
    if times == [] || levels.Amplitude() <= 0.0 then r == Invalid
    else exists mid :: StartsAt(mid, times[0], dt, |v|)
                       && IsEdgeTime(r, v, mid, Near(levels, rising), Far(levels, rising), rising, dt)
  }

  ghost predicate IsTiming(t: Timing, v: seq<real>, crossings: seq<Crossing>, levels: Levels, dt: real)
    requires v != []
  {
    var rising, falling := TimesOf(crossings, true), TimesOf(crossings, false);
    && IsPeriod(t.period, t.frequency, rising, falling)
    && IsDuty(t.duty, t.period, rising, falling)
    && IsEdgeReading(t.rise, v, rising, levels, true, dt)
    && IsEdgeReading(t.fall, v, falling, levels, false, dt)
  }

  method MeasureTiming(v: seq<real>, crossings: seq<Crossing>, levels: Levels, dt: real) returns (t: Timing)
    requires v != []
    ensures IsTiming(t, v, crossings, levels, dt)
  {
    hide IsPeriod, IsDuty, IsEdgeReading, TimesOf;
    var rising, falling := SplitTimes(crossings);
    var period, frequency := MeasurePeriod(rising, falling);
    PeriodIsPositive(period, frequency, rising, falling);
    var duty := MeasureDuty(period, rising, falling);
    var rise := EdgeReading(v, rising, levels, true, dt);
    var fall := EdgeReading(v, falling, levels, false, dt);
    t := Timing(period, frequency, duty, rise, fall);
  }

  method EdgeReading(v: seq<real>, times: seq<real>, levels: Levels, rising: bool, dt: real) returns (r: Reading)
    requires v != []
    ensures IsEdgeReading(r, v, times, levels, rising, dt)
  {
    hide IsEdgeTime, SampleBefore;
    var span := levels.Amplitude();
    if times == [] || span <= 0.0 { return Invalid; }
    var low, high := levels.base + span * RISE_LOW, levels.base + span * RISE_HIGH;
    LowBelowHigh(levels, rising);
    var mid := if dt == 0.0 then 0 else SampleBefore(times[0], dt, |v|);
    r := MeasureEdge(v, mid, low, high, rising, dt);
    assert StartsAt(mid, times[0], dt, |v|);
  }

  lemma LowBelowHigh(levels: Levels, rising: bool)
    requires levels.Amplitude() > 0.0
    ensures InOrder(Near(levels, rising), levels.Mid(), Far(levels, rising), rising)
  {
  }

  /** The sample at or before a time, kept inside the record. */
  function SampleBefore(t: real, dt: real, count: nat): (i: nat)
    requires dt != 0.0 && count > 0
    ensures i < count
  {
    var i := (t / dt).Floor;
    if i < 0 then 0 else if i < count - 1 then i else count - 1
  }

  method SplitTimes(crossings: seq<Crossing>) returns (rising: seq<real>, falling: seq<real>)
    ensures rising == TimesOf(crossings, true) && falling == TimesOf(crossings, false)
  {
    rising, falling := [], [];
    for i := 0 to |crossings|
      invariant rising == TimesOf(crossings[..i], true) && falling == TimesOf(crossings[..i], false)
    {
      assert crossings[..i + 1][..i] == crossings[..i];
      var c := crossings[i];
      if c.rising { rising := rising + [c.time]; } else { falling := falling + [c.time]; }
    }
    assert crossings[..|crossings|] == crossings;
  }

  // ---- where the search for an edge starts -----------------------------------------------

  /** A crossing time counted in samples. */
  lemma TimeInSamples(v: seq<real>, e: nat, level: real, dt: real) returns (f: real)
    requires 1 <= e < |v| && v[e] != v[e - 1] && dt != 0.0
    ensures f == (level - v[e - 1]) / (v[e] - v[e - 1]) && f * (v[e] - v[e - 1]) == level - v[e - 1]
    ensures CrossingTime(v, e, level, dt) / dt == (e - 1) as real + f
    ensures StartIsDefined(CrossingTime(v, e, level, dt), dt) <==> (e - 1) as real + f > -1.0
  {
    f := (level - v[e - 1]) / (v[e] - v[e - 1]);
    var x := (e - 1) as real + f;
    assert CrossingTime(v, e, level, dt) == x * dt;
    Quotient(x, dt);
  }

  lemma Quotient(x: real, dt: real)
    requires dt != 0.0
    ensures x * dt / dt == x
  {
  }

  /**
   Whether a crossing's time can be converted to a sample: exactly when the line through
   its two samples, followed back from the first one, is on the near side of the level
   within e samples, and the sample interval is not zero.
   */
  lemma StartIsDefinedIff(v: seq<real>, e: nat, above: bool, level: real, band: Band, dt: real)
    requires 1 <= e < |v| && band.lo < level < band.hi && ClearsAt(v, e, above, band)
    ensures StartIsDefined(CrossingTime(v, e, level, dt), dt)
            <==> && dt != 0.0
                 && if above then level - v[e - 1] < e as real * (v[e - 1] - v[e])
                    else v[e - 1] - level < e as real * (v[e] - v[e - 1])
  {
    hide CrossingTime;
    if dt != 0.0 {
      var f := TimeInSamples(v, e, level, dt);
      PositiveIff(e as real, f, v[e] - v[e - 1], level - v[e - 1]);
    }
  }

  lemma PositiveIff(n: real, f: real, step: real, rest: real)
    requires step != 0.0 && f * step == rest
    ensures n + f > 0.0 <==> if step > 0.0 then -rest < n * step else rest < n * -step
  {
    var x := n + f;
    assert x * step == n * step + rest;
    assert n * -step == -(n * step);
    SignOfFactor(x, step);
  }

  lemma SignOfFactor(x: real, step: real)
    requires step != 0.0
    ensures x > 0.0 <==> if step > 0.0 then x * step > 0.0 else x * step < 0.0
  {
  }

  /** The search starts at the sample before the crossing exactly when that sample is not past the level already. */
  lemma SearchStartsBeforeCrossing(v: seq<real>, e: nat, above: bool, level: real, band: Band, dt: real)
    requires 1 <= e < |v| && dt != 0.0 && band.lo < level < band.hi && ClearsAt(v, e, above, band)
    ensures SampleBefore(CrossingTime(v, e, level, dt), dt, |v|) == e - 1 <==> Bracketed(v, e, above, level) || e == 1
  {
    var f := TimeInSamples(v, e, level, dt);
    Fraction(v[e - 1], v[e], level);
    assert f < 1.0 && (f >= 0.0 <==> Bracketed(v, e, above, level));
  }

  lemma StartOfBracketed(v: seq<real>, e: nat, level: real, rising: bool, dt: real)
    requires dt != 0.0 && 1 <= e < |v| && Leaves(v, e, level, rising)
    ensures StartIsDefined(CrossingTime(v, e, level, dt), dt)
    ensures SampleBefore(CrossingTime(v, e, level, dt), dt, |v|) == e - 1
  {
    var f := TimeInSamples(v, e, level, dt);
    Fraction(v[e - 1], v[e], level);
  }

  /**
   For a bracketed first crossing the reading times the edge from the sample before
   it. It is the time of that edge itself if and only if the step that crosses the
   middle does not leave the near level; otherwise it is longer, or there is none.
   */
  lemma BracketedEdgeReading(r: Reading, own: Reading, v: seq<real>, times: seq<real>, levels: Levels, rising: bool,
                             dt: real, e: nat)
    requires dt > 0.0 && levels.Amplitude() > 0.0 && 1 <= e < |v| && Leaves(v, e, levels.Mid(), rising)
    requires times != [] && times[0] == CrossingTime(v, e, levels.Mid(), dt)
    requires IsEdgeReading(r, v, times, levels, rising, dt)
    requires IsEdgeTime(own, v, e, Near(levels, rising), Far(levels, rising), rising, dt)
    ensures IsEdgeTime(r, v, e - 1, Near(levels, rising), Far(levels, rising), rising, dt)
    ensures own.Invalid? ==> r.Invalid?
    ensures own.Valid? ==> (r == own <==> !Leaves(v, e, Near(levels, rising), rising))
    ensures own.Valid? && r.Valid? && r != own ==> r.value > own.value
  {
    hide IsEdgeTime, Near, SampleBefore, StartIsDefined, CrossingTime;
    StartOfBracketed(v, e, levels.Mid(), rising, dt);
    LowBelowHigh(levels, rising);
    EdgeTimeIsOwnIff(v, e - 1, e, Near(levels, rising), Far(levels, rising), rising, dt, r, own);
  }

  /** Where the conversion is defined the search starts before the accepting sample. */
  lemma StartsBeforeAccepting(v: seq<real>, e: nat, above: bool, level: real, band: Band, dt: real)
    requires 1 <= e < |v| && dt != 0.0 && band.lo < level < band.hi && ClearsAt(v, e, above, band)
    ensures SampleBefore(CrossingTime(v, e, level, dt), dt, |v|) < e
  {
    var f := TimeInSamples(v, e, level, dt);
    Fraction(v[e - 1], v[e], level);
    assert f < 1.0;
  }

  /** A reading is the distance between two ends, and the crossing at `t` lies between them. */
  ghost predicate Straddles(r: Reading, v: seq<real>, levels: Levels, rising: bool, dt: real, t: real) {
    var near, far := Near(levels, rising), Far(levels, rising);
    r.Valid? ==>
      exists i: nat, j: nat ::
        && 1 <= i < |v| && 1 <= j < |v| && Leaves(v, i, near, rising) && Reaches(v, j, far, rising)
        && r.value == CrossingTime(v, j, far, dt) - CrossingTime(v, i, near, dt)
        && CrossingTime(v, i, near, dt) < t < CrossingTime(v, j, far, dt)
  }

  lemma ReadingStraddles(r: Reading, v: seq<real>, times: seq<real>, levels: Levels, rising: bool, dt: real, e: nat)
    requires dt > 0.0 && levels.Amplitude() > 0.0 && 1 <= e < |v| && Leaves(v, e, levels.Mid(), rising)
    requires times != [] && times[0] == CrossingTime(v, e, levels.Mid(), dt)
    requires IsEdgeReading(r, v, times, levels, rising, dt)
    ensures Straddles(r, v, levels, rising, dt, times[0])
  {
    hide Near, SampleBefore, StartIsDefined, CrossingTime, Leaves, Reaches;
    StartOfBracketed(v, e, levels.Mid(), rising, dt);
    LowBelowHigh(levels, rising);
    var near, far := Near(levels, rising), Far(levels, rising);
    if r.Valid? {
      var i :| LastLeft(v, e - 1, near, rising, i);
      var j :| FirstReached(v, e - 1, far, rising, j);
      EndsStraddleTheCrossing(v, e, near, levels.Mid(), far, rising, dt, i, j);
    }
  }

  // ---- reports of well-behaved records ------------------------------------------------------

  /** Every crossing the timing is taken from is bracketed by its two samples. */
  ghost predicate IsBracketed(s: seq<Count>, k: real, zero: real)
    requires s != []
  {
    var v, levels := VoltsOf(s, k, zero), LevelsOf(s, k, zero);
    var above, band := v[0] > levels.Mid(), BandAround(levels.Mid(), levels.Amplitude() * HYSTERESIS_FRACTION);
    AllBracketed(v, Accepted(v, 1, above, band), above, levels.Mid())
  }

  /**
   A record that is not flat and whose crossings are bracketed: crossing times increase
   and directions alternate; there is a period exactly when there are three crossings,
   shorter than the record; there is a duty exactly when moreover some rise is followed
   within a period; and a rise or fall time spans the first crossing in its direction.
   */
  lemma ReportOfBracketedRecord(r: Report, s: seq<Count>, k: real, zero: real, dt: real)
    requires dt > 0.0 && k > 0.0 && s != [] && MinOf(s) < MaxOf(s)
    requires ReportIsSound(r, s, k, zero, dt) && IsBracketed(s, k, zero)
    ensures var all, t := TimedCrossings(s, k, zero, dt), r.timing;
            && TimesIncrease(all) && DirectionsAlternate(all)
            && (t.period.Valid? <==> |all| >= 3)
            && (t.period.Valid? ==>
                  && 0.0 < t.period.value <= all[|all| - 1].time - all[0].time < SampleTime(|s| - 1, dt)
                  && t.frequency.Valid? && Reciprocal(t.frequency.value, t.period.value))
            && (t.duty.Valid? <==>
                  |all| >= 3 && exists j :: 0 <= j < |all| && HighWithin(all, j, t.period.value))
    ensures var v, all, t := VoltsOf(s, k, zero), TimedCrossings(s, k, zero, dt), r.timing;
            && (TimesOf(all, true) != [] ==> Straddles(t.rise, v, r.levels, true, dt, TimesOf(all, true)[0]))
            && (TimesOf(all, false) != [] ==> Straddles(t.fall, v, r.levels, false, dt, TimesOf(all, false)[0]))
  {
    hide LevelsOf, MinOf, MaxOf, VoltsOf, AreMeans, Volts, IsPeriod, IsDuty, IsEdgeReading, Straddles, TimesOf,
         TimesIncrease, DirectionsAlternate, HighWithin, Reciprocal;
    LevelsAreOrdered(s, k, zero);
    MoreThanOneSample(s);
    CrossingsFitTheRecord(s, k, zero, dt);
    var all, t := TimedCrossings(s, k, zero, dt), r.timing;
    PeriodIsPositive(t.period, t.frequency, TimesOf(all, true), TimesOf(all, false));
    PeriodNeedsThree(t.period, t.frequency, all);
    DutyIff(t.duty, t.period, all);
    EdgeOfBracketedRecord(t.rise, s, k, zero, dt, true);
    EdgeOfBracketedRecord(t.fall, s, k, zero, dt, false);
  }

  lemma MoreThanOneSample(s: seq<Count>)
    requires s != [] && MinOf(s) < MaxOf(s)
    ensures |s| >= 2
  {
  }

  lemma CrossingsFitTheRecord(s: seq<Count>, k: real, zero: real, dt: real)
    requires dt > 0.0 && |s| >= 2 && LevelsOf(s, k, zero).Amplitude() > 0.0 && IsBracketed(s, k, zero)
    ensures var all := TimedCrossings(s, k, zero, dt);
            && TimesIncrease(all) && DirectionsAlternate(all)
            && (all != [] ==> all[|all| - 1].time - all[0].time < SampleTime(|s| - 1, dt))
  {
    hide LevelsOf, VoltsOf, Accepted, CrossingTime, Bracketed, SampleTime, TimesIncrease, DirectionsAlternate;
    var v, levels := VoltsOf(s, k, zero), LevelsOf(s, k, zero);
    var mid, hysteresis := levels.Mid(), levels.Amplitude() * HYSTERESIS_FRACTION;
    BracketedTimesIncrease(v, mid, hysteresis, dt);
    CrossingsAlternate(v, dt, mid, hysteresis);
    var all := TimedCrossings(s, k, zero, dt);
    if all != [] {
      var first := BracketedCrossingIsAStep(v, mid, hysteresis, dt, 0);
      var last := BracketedCrossingIsAStep(v, mid, hysteresis, dt, |all| - 1);
      LaterSample(0, first - 1, dt);
      LaterSample(last, |v| - 1, dt);
      FirstSampleTime(dt);
    }
  }

  lemma EdgeOfBracketedRecord(r: Reading, s: seq<Count>, k: real, zero: real, dt: real, rising: bool)
    requires dt > 0.0 && |s| >= 2 && LevelsOf(s, k, zero).Amplitude() > 0.0 && IsBracketed(s, k, zero)
    requires IsEdgeReading(r, VoltsOf(s, k, zero), TimesOf(TimedCrossings(s, k, zero, dt), rising),
                           LevelsOf(s, k, zero), rising, dt)
    ensures var times := TimesOf(TimedCrossings(s, k, zero, dt), rising);
            times != [] ==> Straddles(r, VoltsOf(s, k, zero), LevelsOf(s, k, zero), rising, dt, times[0])
  {
    hide LevelsOf, VoltsOf, Accepted, CrossingTime, Bracketed, SampleTime, TimesOf, IsEdgeReading, Straddles, Crossings;
    var v, levels := VoltsOf(s, k, zero), LevelsOf(s, k, zero);
    var mid, hysteresis := levels.Mid(), levels.Amplitude() * HYSTERESIS_FRACTION;
    var all := TimedCrossings(s, k, zero, dt);
    var times := TimesOf(all, rising);
    if times != [] {
      TimesComeFromCrossings(all, rising, 0);
      var j :| 0 <= j < |all| && all[j] == Crossing(times[0], rising);
      var e := BracketedCrossingIsAStep(v, mid, hysteresis, dt, j);
      ReadingStraddles(r, v, times, levels, rising, dt, e);
    }
  }

  // ---- whether an edge reading is of its own edge ---------------------------------------------

  function EdgeOf(t: Timing, rising: bool): Reading { if rising then t.rise else t.fall }

  /**
   The first rise and the first fall of a report, for any record that is not flat. The
   search starts at `mid`, before the sample that accepts the crossing. The ends found are
   those of that crossing's own edge if and only if from `mid` to that sample the near
   level is not left and the far level not reached. When `mid` is not before the crossing
   ahead of it the far level is not reached, and then the reading is the own edge's time
   if and only if the near level is not left, and otherwise longer or missing.
   */
  lemma EdgeOfReportIsOwnIff(r: Report, own: Reading, s: seq<Count>, k: real, zero: real, dt: real, n: nat)
    requires dt > 0.0 && k > 0.0 && s != [] && MinOf(s) < MaxOf(s) && ReportIsSound(r, s, k, zero, dt)
    requires n <= 1 && n < |TimedCrossings(s, k, zero, dt)|
    requires StartIsDefined(TimedCrossings(s, k, zero, dt)[n].time, dt)
    requires var rising := TimedCrossings(s, k, zero, dt)[n].rising;
             IsEdgeTime(own, VoltsOf(s, k, zero), TimedSamples(s, k, zero)[n],
                        Near(r.levels, rising), Far(r.levels, rising), rising, dt)
    ensures var v, c, e := VoltsOf(s, k, zero), TimedCrossings(s, k, zero, dt)[n], TimedSamples(s, k, zero);
            var near, far := Near(r.levels, c.rising), Far(r.levels, c.rising);
            var mid, reading := SampleBefore(c.time, dt, |v|), EdgeOf(r.timing, c.rising);
            && mid < e[n] && IsEdgeTime(reading, v, mid, near, far, c.rising, dt)
            && (forall i, j :: LastLeft(v, e[n], near, c.rising, i) && FirstReached(v, e[n], far, c.rising, j) ==>
                  (LastLeft(v, mid, near, c.rising, i) && FirstReached(v, mid, far, c.rising, j)
                   <==> NotLeft(v, mid, e[n], near, c.rising) && NotReached(v, mid, e[n], far, c.rising)))
            && (n == 0 || e[0] <= mid ==>
                  && NotReached(v, mid, e[n], far, c.rising)
                  && (own.Invalid? ==> reading.Invalid?)
                  && (own.Valid? ==> (reading == own <==> NotLeft(v, mid, e[n], near, c.rising)))
                  && (own.Valid? && reading.Valid? && reading != own ==> reading.value > own.value))
  {
    hide LevelsOf, MinOf, MaxOf, VoltsOf, AreMeans, Volts, IsPeriod, IsDuty, IsEdgeTime, TimesOf, Accepted, Crossings,
         NotLeft, NotReached, LastLeft, FirstReached, Near, SampleBefore, StartIsDefined, CrossingTime;
    LevelsAreOrdered(s, k, zero);
    MoreThanOneSample(s);
    var v, c, e := VoltsOf(s, k, zero), TimedCrossings(s, k, zero, dt)[n], TimedSamples(s, k, zero);
    var near, far, mid := Near(r.levels, c.rising), Far(r.levels, c.rising), SampleBefore(c.time, dt, |v|);
    CrossingIsAccepted(s, k, zero, dt, n);
    StartsBeforeAccepting(v, e[n], !c.rising, r.levels.Mid(), TimedBand(r.levels), dt);
    FirstOfItsDirection(s, k, zero, dt, n);
    LowBelowHigh(r.levels, c.rising);
    forall i, j | LastLeft(v, e[n], near, c.rising, i) && FirstReached(v, e[n], far, c.rising, j)
      ensures LastLeft(v, mid, near, c.rising, i) && FirstReached(v, mid, far, c.rising, j)
              <==> NotLeft(v, mid, e[n], near, c.rising) && NotReached(v, mid, e[n], far, c.rising)
    {
      EndsAreOwnIff(v, mid, e[n], near, far, c.rising, i, j);
    }
    if n == 0 || e[0] <= mid {
      FarIsNotReached(s, k, zero, dt, n, mid);
      EdgeTimeIsOwnIff(v, mid, e[n], near, far, c.rising, dt, EdgeOf(r.timing, c.rising), own);
    }
  }

  lemma CrossingIsAccepted(s: seq<Count>, k: real, zero: real, dt: real, n: nat)
    requires |s| >= 2 && LevelsOf(s, k, zero).Amplitude() > 0.0
    requires n < |TimedCrossings(s, k, zero, dt)|
    ensures var v, levels := VoltsOf(s, k, zero), LevelsOf(s, k, zero);
            var c, e := TimedCrossings(s, k, zero, dt)[n], TimedSamples(s, k, zero)[n];
            var band := TimedBand(levels);
            && band.lo < levels.Mid() < band.hi
            && c.time == CrossingTime(v, e, levels.Mid(), dt) && ClearsAt(v, e, !c.rising, band)
  {
    hide LevelsOf, VoltsOf, Accepted, CrossingTime, ClearsAt;
    var v, levels := VoltsOf(s, k, zero), LevelsOf(s, k, zero);
    AcceptedSamples(v, 1, v[0] > levels.Mid(), TimedBand(levels));
  }

  lemma FirstOfItsDirection(s: seq<Count>, k: real, zero: real, dt: real, n: nat)
    requires n <= 1 && n < |TimedCrossings(s, k, zero, dt)|
    ensures var all := TimedCrossings(s, k, zero, dt);
            var times := TimesOf(all, all[n].rising);
            times != [] && times[0] == all[n].time
  {
    hide Crossings, LevelsOf, VoltsOf, TimesOf;
    var all := TimedCrossings(s, k, zero, dt);
    FirstTime(all);
    if n == 1 {
      var levels := LevelsOf(s, k, zero);
      CrossingsAlternate(VoltsOf(s, k, zero), dt, levels.Mid(), levels.Amplitude() * HYSTERESIS_FRACTION);
      SecondTime(all);
    }
  }

  lemma SecondTime(all: seq<Crossing>)
    requires |all| >= 2 && all[0].rising != all[1].rising
    ensures var t := TimesOf(all, all[1].rising); t != [] && t[0] == all[1].time
  {
    assert all == [all[0]] + all[1..];
    assert [all[0]][..0] == [];
    TimesOfConcat([all[0]], all[1..], all[1].rising);
    FirstTime(all[1..]);
  }

  /** Between two accepted samples none clears the band. */
  lemma {:induction false} QuietUntilAccepted(v: seq<real>, i: nat, above: bool, band: Band)
    requires Accepted(v, i, above, band) != []
    ensures var e := Accepted(v, i, above, band);
            && (forall j :: i <= j < e[0] ==> !band.Clears(above, v[j]))
            && band.Clears(above, v[e[0]]) && e[1..] == Accepted(v, e[0] + 1, !above, band)
    decreases |v| - i
  {
    if !band.Clears(above, v[i]) {
      QuietUntilAccepted(v, i + 1, above, band);
    }
  }

  lemma FarIsNotReached(s: seq<Count>, k: real, zero: real, dt: real, n: nat, mid: nat)
    requires |s| >= 2 && LevelsOf(s, k, zero).Amplitude() > 0.0
    requires n <= 1 && n < |TimedCrossings(s, k, zero, dt)|
    requires n == 1 ==> TimedSamples(s, k, zero)[0] <= mid
    ensures var rising := TimedCrossings(s, k, zero, dt)[n].rising;
            NotReached(VoltsOf(s, k, zero), mid, TimedSamples(s, k, zero)[n],
                       Far(LevelsOf(s, k, zero), rising), rising)
  {
    hide LevelsOf, VoltsOf, Accepted, CrossingTime;
    var v, levels, e := VoltsOf(s, k, zero), LevelsOf(s, k, zero), TimedSamples(s, k, zero);
    var above, band := v[0] > levels.Mid(), TimedBand(levels);
    QuietUntilAccepted(v, 1, above, band);
    if n == 1 {
      QuietUntilAccepted(v, e[0] + 1, !above, band);
      assert e[1..][0] == e[1];
    }
  }

  // ---- records whose edges are timed wrongly ----------------------------------------------

  lemma RestingRecord(s: seq<Count>, lo: Count, hi: Count)
    requires lo < hi && lo in s && hi in s && forall c :: c in s ==> lo <= c <= hi
    requires |s| < 2 * multiset(s)[lo] + multiset(s)[hi] && |s| < multiset(s)[lo] + 2 * multiset(s)[hi]
    ensures LevelsOf(s, 1.0, 0.0) == Levels(hi as real, lo as real, true)
  {
    assert MinOf(s) == lo && MaxOf(s) == hi;
    RestingAtTheExtremes(s, 1.0, 0.0);
  }

  /** A signal that stays below the band up to sample e, and above it from there on, crosses it once. */
  lemma {:induction false} AcceptsOnly(v: seq<real>, i: nat, e: nat, band: Band)
    requires i <= e < |v| && band.Clears(false, v[e])
    requires forall j :: i <= j < e ==> !band.Clears(false, v[j])
    requires forall j :: e < j < |v| ==> !band.Clears(true, v[j])
    ensures Accepted(v, i, false, band) == [e]
    decreases e - i
  {
    if i < e {
      AcceptsOnly(v, i + 1, e, band);
    } else {
      AcceptsNothing(v, e + 1, band);
    }
  }

  lemma {:induction false} AcceptsNothing(v: seq<real>, i: nat, band: Band)
    requires forall j :: i <= j < |v| ==> !band.Clears(true, v[j])
    ensures Accepted(v, i, true, band) == []
    decreases |v| - i
  {
    if i < |v| {
      AcceptsNothing(v, i + 1, band);
    }
  }

  /** A record that rests at its extremes, first clears the band at sample e and then stays above it. */
  ghost predicate RisesOnce(s: seq<Count>, lo: Count, hi: Count, e: nat) {
    && lo < hi && lo in s && hi in s && (forall c :: c in s ==> lo <= c <= hi)
    && |s| < 2 * multiset(s)[lo] + multiset(s)[hi] && |s| < multiset(s)[lo] + 2 * multiset(s)[hi]
    && 1 <= e < |s| && 2 * s[0] <= lo + hi && (forall j :: 0 <= j < e ==> 20 * s[j] < 11 * hi + 9 * lo)
    && 20 * s[e] >= 11 * hi + 9 * lo && (forall j :: e < j < |s| ==> 20 * s[j] > 9 * hi + 11 * lo)
  }

  /** The rise reading of such a record is searched from the sample its time is converted to. */
  lemma RiseOfOneCrossing(r: Report, s: seq<Count>, lo: Count, hi: Count, e: nat)
    requires RisesOnce(s, lo, hi, e) && ReportIsSound(r, s, 1.0, 0.0, 1.0)
    ensures var v, levels := VoltsOf(s, 1.0, 0.0), Levels(hi as real, lo as real, true);
            var time := CrossingTime(v, e, levels.Mid(), 1.0);
            && r.Report? && TimedCrossings(s, 1.0, 0.0, 1.0) == [Crossing(time, true)]
            && (StartIsDefined(time, 1.0) ==>
                  IsEdgeTime(r.timing.rise, v, SampleBefore(time, 1.0, |v|),
                             Near(levels, true), Far(levels, true), true, 1.0))
  {
    hide LevelsOf, AreMeans, MinOf, MaxOf, IsEdgeTime, IsPeriod, IsDuty, SampleBefore, StartIsDefined, Near,
         CrossingTime, Accepted;
    var v, levels := VoltsOf(s, 1.0, 0.0), Levels(hi as real, lo as real, true);
    RestingRecord(s, lo, hi);
    var band := BandAround(levels.Mid(), levels.Amplitude() * HYSTERESIS_FRACTION);
    AcceptsOnly(v, 1, e, band);
    FirstTime(TimedCrossings(s, 1.0, 0.0, 1.0));
  }

  function CleanStep(): seq<Count> { [0, 0, 0, 10, 10, 10] }

  /** A clean step, which passes the 10%, middle and 90% points between two samples, is given no rise time. */
  lemma CleanStepHasNoRiseTime(r: Report)
    requires ReportIsSound(r, CleanStep(), 1.0, 0.0, 1.0)
    ensures TimedCrossings(CleanStep(), 1.0, 0.0, 1.0) == [Crossing(2.5, true)] && |CleanStep()| > 3
    ensures IsEdgeTime(Valid(0.8), VoltsOf(CleanStep(), 1.0, 0.0), 3, 1.0, 9.0, true, 1.0)
    ensures r.timing.rise == Invalid
  {
    hide ReportIsSound, TimedCrossings, VoltsOf, IsEdgeTime, CrossingTime, RisesOnce, SampleBefore, StartIsDefined,
         Near, CleanStep;
    PointsOf(0, 10);
    CleanStepRises();
    var v := VoltsOf(CleanStep(), 1.0, 0.0);
    RiseOfOneCrossing(r, CleanStep(), 0, 10, 3);
    OwnTimeOfStep(v);
    NothingIsLeft(r.timing.rise, v, 2, 1.0, 9.0);
  }

  function BumpAndStep(): seq<Count> { [0, 3, 0, 10, 10] }

  /** A small bump before the edge is timed as part of it: more than 2.5 samples for an edge that takes 0.8. */
  lemma BumpIsTimedWithTheEdge(r: Report)
    requires ReportIsSound(r, BumpAndStep(), 1.0, 0.0, 1.0)
    ensures TimedCrossings(BumpAndStep(), 1.0, 0.0, 1.0) == [Crossing(2.5, true)] && |BumpAndStep()| > 3
    ensures IsEdgeTime(Valid(0.8), VoltsOf(BumpAndStep(), 1.0, 0.0), 3, 1.0, 9.0, true, 1.0)
    ensures r.timing.rise == Valid(77.0 / 30.0)
  {
    hide ReportIsSound, TimedCrossings, VoltsOf, IsEdgeTime, CrossingTime, RisesOnce, SampleBefore, StartIsDefined,
         Near, BumpAndStep;
    PointsOf(0, 10);
    BumpAndStepRise();
    var v := VoltsOf(BumpAndStep(), 1.0, 0.0);
    RiseOfOneCrossing(r, BumpAndStep(), 0, 10, 3);
    OwnTimeOfStep(v);
    TimeWithTheBump(r.timing.rise, v);
  }

  function CreepingEdge(): seq<Count> { [0, 0, 0, 540, 551, 1000, 1000, 1000] }

  /**
   An edge of several steps whose crossing is not bracketed: its time is before the
   record but can still be converted, the search starts at sample 0, and no rise time is
   reported, although the edge's own ends are there and its last step leaves no level.
   */
  lemma CreepingEdgeHasNoRiseTime(r: Report)
    requires ReportIsSound(r, CreepingEdge(), 1.0, 0.0, 1.0)
    ensures TimedCrossings(CreepingEdge(), 1.0, 0.0, 1.0) == [Crossing(-7.0 / 11.0, true)] && |CreepingEdge()| > 4
    ensures var v := VoltsOf(CreepingEdge(), 1.0, 0.0);
            LastLeft(v, 4, 100.0, true, 3) && FirstReached(v, 4, 900.0, true, 5) && !Leaves(v, 4, 100.0, true)
    ensures r.timing.rise == Invalid
  {
    hide ReportIsSound, TimedCrossings, VoltsOf, IsEdgeTime, CrossingTime, RisesOnce, SampleBefore, StartIsDefined,
         Near, CreepingEdge;
    PointsOf(0, 1000);
    CreepingEdgeRises();
    var v := VoltsOf(CreepingEdge(), 1.0, 0.0);
    RiseOfOneCrossing(r, CreepingEdge(), 0, 1000, 4);
    TimeOfCreepingEdge(v);
    NothingIsLeft(r.timing.rise, v, 0, 100.0, 900.0);
  }

  lemma PointsOf(lo: Count, hi: Count)
    ensures var levels, span := Levels(hi as real, lo as real, true), (hi - lo) as real;
            && Near(levels, true) == lo as real + span * 0.1
            && Far(levels, true) == lo as real + span * 0.9
  {
  }

  lemma NothingIsLeft(r: Reading, v: seq<real>, mid: nat, near: real, far: real)
    requires mid < |v| && IsEdgeTime(r, v, mid, near, far, true, 1.0)
    requires forall j :: 0 <= j <= mid ==> v[j] <= near
    ensures r == Invalid
  {
  }

  lemma CleanStepRises()
    ensures RisesOnce(CleanStep(), 0, 10, 3)
    ensures VoltsOf(CleanStep(), 1.0, 0.0) == [0.0, 0.0, 0.0, 10.0, 10.0, 10.0]
  {
    var s := CleanStep();
    assert s[0] == 0 && s[3] == 10;
  }

  lemma BumpAndStepRise()
    ensures RisesOnce(BumpAndStep(), 0, 10, 3)
    ensures VoltsOf(BumpAndStep(), 1.0, 0.0) == [0.0, 3.0, 0.0, 10.0, 10.0]
  {
    var s := BumpAndStep();
    assert s[0] == 0 && s[3] == 10;
  }

  lemma CreepingEdgeRises()
    ensures RisesOnce(CreepingEdge(), 0, 1000, 4)
    ensures VoltsOf(CreepingEdge(), 1.0, 0.0) == [0.0, 0.0, 0.0, 540.0, 551.0, 1000.0, 1000.0, 1000.0]
  {
    var s := CreepingEdge();
    assert s[0] == 0 && s[5] == 1000;
  }

  lemma OwnTimeOfStep(v: seq<real>)
    requires |v| > 3 && v[2] == 0.0 && v[3] == 10.0
    ensures IsEdgeTime(Valid(0.8), v, 3, 1.0, 9.0, true, 1.0)
    ensures CrossingTime(v, 3, 5.0, 1.0) == 2.5 && StartIsDefined(2.5, 1.0) && SampleBefore(2.5, 1.0, |v|) == 2
  {
    assert LastLeft(v, 3, 1.0, true, 3) && FirstReached(v, 3, 9.0, true, 3);
    assert forall i :: LastLeft(v, 3, 1.0, true, i) ==> i == 3;
    assert forall j :: FirstReached(v, 3, 9.0, true, j) ==> j == 3;
  }

  lemma TimeWithTheBump(r: Reading, v: seq<real>)
    requires v == [0.0, 3.0, 0.0, 10.0, 10.0] && IsEdgeTime(r, v, 2, 1.0, 9.0, true, 1.0)
    ensures r == Valid(77.0 / 30.0)
  {
    assert LastLeft(v, 2, 1.0, true, 1) && FirstReached(v, 2, 9.0, true, 3);
  }

  lemma TimeOfCreepingEdge(v: seq<real>)
    requires v == [0.0, 0.0, 0.0, 540.0, 551.0, 1000.0, 1000.0, 1000.0]
    ensures CrossingTime(v, 4, 500.0, 1.0) == -7.0 / 11.0
    ensures StartIsDefined(-7.0 / 11.0, 1.0) && SampleBefore(-7.0 / 11.0, 1.0, |v|) == 0
    ensures LastLeft(v, 4, 100.0, true, 3) && FirstReached(v, 4, 900.0, true, 5) && !Leaves(v, 4, 100.0, true)
  {
  }

  /** Two samples creep up to the edge of the band, a third clears it, and the record then rests high and low. */
  function CreepingRecord(): (s: seq<Count>)
    ensures |s| == 11 && s[0] == 500 && s[1] == 549 && s[2] == 550
  {
    [500, 549, 550] + [1000, 1000, 1000, 1000] + [0, 0, 0, 0]
  }

  lemma LevelsOfCreepingRecord()
    ensures LevelsOf(CreepingRecord(), 1.0, 0.0) == Levels(1000.0, 0.0, true)
  {
    hide LevelsOf, MinOf, MaxOf, Volts;
    var creeping, high, low: seq<Count> := [500, 549, 550], [1000, 1000, 1000, 1000], [0, 0, 0, 0];
    var s := CreepingRecord();
    assert s == creeping + high + low;
    assert multiset(high)[1000] == 4 && multiset(low)[0] == 4;
    assert multiset(s) == multiset(creeping) + multiset(high) + multiset(low);
    assert s[3] == 1000 && s[7] == 0;
    RestingRecord(s, 0, 1000);
  }

  /** Its first crossing is timed 48 samples before the record, where no index is defined to search from. */
  lemma FirstCrossingBeforeTheRecord()
    ensures var times := TimesOf(TimedCrossings(CreepingRecord(), 1.0, 0.0, 1.0), true);
            times != [] && times[0] == -48.0 && !StartIsDefined(times[0], 1.0)
  {
    hide TimesOf, Accepted, LevelsOf, CreepingRecord, Crossings;
    LevelsOfCreepingRecord();
    var v := VoltsOf(CreepingRecord(), 1.0, 0.0);
    FirstOfCreeping(v);
    FirstTime(TimedCrossings(CreepingRecord(), 1.0, 0.0, 1.0));
  }

  lemma FirstOfCreeping(v: seq<real>)
    requires |v| >= 3 && v[0] == 500.0 && v[1] == 549.0 && v[2] == 550.0
    ensures var all := Crossings(v, 1.0, 500.0, 100.0); all != [] && all[0] == Crossing(-48.0, true)
  {
    hide Accepted;
    var band := BandAround(500.0, 100.0);
    AcceptedStep(v, 1, false, band);
    AcceptedStep(v, 2, false, band);
    assert Accepted(v, 1, false, band)[0] == 2;
    SideAtStart(false);
  }
}
