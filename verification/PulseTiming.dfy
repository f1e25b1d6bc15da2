/**
 Period, frequency and duty from the crossings of a record, and how rises are paired
 with falls by the measurement engine and by the bus command.
 */
module PulseTiming {
  import opened Sequences
  import opened EdgeDetector
  import opened Median

  datatype Reading = Invalid | Valid(value: real)

  // ---- intervals -------------------------------------------------------------------

  function Gaps(times: seq<real>): (g: seq<real>)
    ensures |g| == if times == [] then 0 else |times| - 1
  {
    if times == [] then []
    else seq(|times| - 1, i requires 0 <= i < |times| - 1 => times[i + 1] - times[i])
  }

  /** m is a median of these values under some arrangement nth_element permits. */
  ghost predicate PossibleMedian(values: seq<real>, m: real) {
    exists after :: after != [] && Arranged(values, after, |values| / 2) && m == MedianOf(after)
  }

  method MedianInterval(times: seq<real>) returns (m: real)
    ensures |times| < 2 ==> m == 0.0
    ensures |times| >= 2 ==> PossibleMedian(Gaps(times), m)
  {
    if |times| < 2 { return 0.0; }
    var gaps := new real[|times| - 1];
    for i := 1 to |times|
      invariant gaps[..i - 1] == Gaps(times)[..i - 1]
    {
      gaps[i - 1] := times[i] - times[i - 1];
    }
    assert gaps[..] == Gaps(times);
    m := TakeMedian(gaps);
  }

  ghost predicate StrictlyIncreasing(times: seq<real>) {
    forall i, j :: 0 <= i < j < |times| ==> times[i] < times[j]
  }

  /** A median of values in an open interval is in it too. */
  lemma MedianIsInside(values: seq<real>, m: real, lo: real, hi: real)
    requires values != [] && PossibleMedian(values, m)
    requires forall i :: 0 <= i < |values| ==> lo < values[i] < hi
    ensures lo < m < hi
  {
    var after :| after != [] && Arranged(values, after, |values| / 2) && m == MedianOf(after);
    SameLength(values, after);
    forall i | 0 <= i < |after| ensures lo < after[i] < hi {
      assert after[i] in multiset(after);
      assert after[i] in values;
    }
  }

  /** And a median of values up to a bound is up to it. */
  lemma MedianIsAtMost(values: seq<real>, m: real, most: real)
    requires values != [] && PossibleMedian(values, m)
    requires forall i :: 0 <= i < |values| ==> values[i] <= most
    ensures m <= most
  {
    var after :| after != [] && Arranged(values, after, |values| / 2) && m == MedianOf(after);
    SameLength(values, after);
    forall i | 0 <= i < |after| ensures after[i] <= most {
      assert after[i] in multiset(after);
      assert after[i] in values;
    }
  }

  function Reference(rising: seq<real>, falling: seq<real>): seq<real> {
    if |rising| >= 2 then rising else falling
  }

  ghost predicate Reciprocal(x: real, y: real) { x * y == 1.0 }

  /** What is reported when the median interval comes out as m. */
  ghost predicate PeriodFrom(m: real, period: Reading, frequency: Reading) {
    if m > 0.0 then period == Valid(m) && frequency.Valid? && Reciprocal(frequency.value, m)
    else period == Invalid && frequency == Invalid
  }

  /**
   The period is the median interval of the rises when there are two of them and of
   the falls otherwise; fewer than two of either means there is none to report.
   */
  ghost predicate IsPeriod(period: Reading, frequency: Reading, rising: seq<real>, falling: seq<real>) {
    var times := Reference(rising, falling);
    if |times| < 2 then period == Invalid && frequency == Invalid
    else exists m :: PossibleMedian(Gaps(times), m) && PeriodFrom(m, period, frequency)
  }

  method MeasurePeriod(rising: seq<real>, falling: seq<real>) returns (period: Reading, frequency: Reading)
    ensures IsPeriod(period, frequency, rising, falling)
  {
    var times := Reference(rising, falling);
    if |times| < 2 { return Invalid, Invalid; }
    var m := MedianInterval(times);
    period, frequency := Invalid, Invalid;
    if m > 0.0 {
      period, frequency := Valid(m), Valid(1.0 / m);
    }
    assert PeriodFrom(m, period, frequency);
  }

  /** A period that is reported is positive, and increasing times always have one. */
  lemma PeriodIsPositive(period: Reading, frequency: Reading, rising: seq<real>, falling: seq<real>)
    requires IsPeriod(period, frequency, rising, falling)
    ensures period.Valid? ==> |Reference(rising, falling)| >= 2 && period.value > 0.0
    ensures period.Valid? ==> frequency.Valid? && Reciprocal(frequency.value, period.value)
    ensures |Reference(rising, falling)| >= 2 && StrictlyIncreasing(Reference(rising, falling)) ==> period.Valid?
  {
    var times := Reference(rising, falling);
    if |times| >= 2 {
      var m :| PossibleMedian(Gaps(times), m) && PeriodFrom(m, period, frequency);
      if StrictlyIncreasing(times) {
        MedianIsPositive(times, m);
      }
    }
  }

  lemma MedianIsPositive(times: seq<real>, m: real)
    requires |times| >= 2 && StrictlyIncreasing(times) && PossibleMedian(Gaps(times), m)
    ensures m > 0.0
  {
    var gaps := Gaps(times);
    var hi := Above(gaps);
    MedianIsInside(gaps, m, 0.0, hi);
  }

  function Above(values: seq<real>): (hi: real)
    ensures forall i :: 0 <= i < |values| ==> values[i] < hi
  {
    if values == [] then 0.0
    else
      var hi, last := Above(values[..|values| - 1]), values[|values| - 1];
      if hi > last then hi else last + 1.0
  }

  /** Evenly spaced rises are given their spacing as the period. */
  lemma SteadyRisesHaveTheirPeriod(period: Reading, frequency: Reading, rising: seq<real>, falling: seq<real>, p: real)
    requires |rising| >= 2 && p > 0.0 && forall i :: 0 < i < |rising| ==> rising[i] - rising[i - 1] == p
    requires IsPeriod(period, frequency, rising, falling)
    ensures period == Valid(p) && frequency.Valid? && Reciprocal(frequency.value, p)
  {
    var m :| PossibleMedian(Gaps(rising), m) && PeriodFrom(m, period, frequency);
    forall i | 0 <= i < |Gaps(rising)| ensures Gaps(rising)[i] == p {
      assert rising[i + 1] - rising[i + 1 - 1] == p;
    }
    MedianOfEqual(Gaps(rising), m, p);
  }

  lemma MedianOfEqual(values: seq<real>, m: real, p: real)
    requires values != [] && PossibleMedian(values, m) && forall i :: 0 <= i < |values| ==> values[i] == p
    ensures m == p
  {
    var after :| after != [] && Arranged(values, after, |values| / 2) && m == MedianOf(after);
    SameLength(values, after);
    forall i | 0 <= i < |after| ensures after[i] == p {
      assert after[i] in multiset(after);
      assert after[i] in values;
    }
  }

  /**
   Rises 1, 1000, 1000 and 1000 apart, the first interval a glitch: the library may leave
   the glitch beside the middle, and 500.5 is reported as the period.
   */
  lemma OneGlitchHalvesTheReportedPeriod(falling: seq<real>)
    ensures exists frequency :: IsPeriod(Valid(500.5), frequency, [0.0, 1.0, 1001.0, 2001.0, 3001.0], falling)
  {
    var rising, after := [0.0, 1.0, 1001.0, 2001.0, 3001.0], [1000.0, 1.0, 1000.0, 1000.0];
    OneGlitchHalvesThePeriod();
    assert Gaps(rising) == [1.0, 1000.0, 1000.0, 1000.0];
    assert PossibleMedian(Gaps(rising), 500.5) by {
      assert Arranged(Gaps(rising), after, |Gaps(rising)| / 2);
    }
    assert PeriodFrom(500.5, Valid(500.5), Valid(1.0 / 500.5));
    assert IsPeriod(Valid(500.5), Valid(1.0 / 500.5), rising, falling);
  }

  // ---- high times ----------------------------------------------------------------------

  /** The position of the first time after t, or the length when there is none. */
  function FirstAfter(times: seq<real>, t: real): (k: nat)
    ensures k <= |times|
  {
    if times == [] then 0 else if times[0] > t then 0 else 1 + FirstAfter(times[1..], t)
  }

  lemma {:induction false} FirstAfterIs(times: seq<real>, t: real, k: nat)
    requires k <= |times|
    requires forall i :: 0 <= i < k ==> times[i] <= t
    requires k < |times| ==> times[k] > t
    ensures FirstAfter(times, t) == k
  {
    if k > 0 {
      FirstAfterIs(times[1..], t, k - 1);
    }
  }

  /** What the engine keeps of one rise: the time to the first later fall, when shorter than a period. */
  function HighTime(rise: real, falling: seq<real>, period: real): seq<real> {
    var k := FirstAfter(falling, rise);
    if k < |falling| && 0.0 < falling[k] - rise < period then [falling[k] - rise] else []
  }

  function HighTimes(rising: seq<real>, falling: seq<real>, period: real): seq<real> {
    if rising == [] then []
    else HighTimes(rising[..|rising| - 1], falling, period) + HighTime(rising[|rising| - 1], falling, period)
  }

  lemma {:induction false} HighTimesAreInside(rising: seq<real>, falling: seq<real>, period: real)
    ensures forall i :: 0 <= i < |HighTimes(rising, falling, period)| ==>
      0.0 < HighTimes(rising, falling, period)[i] < period
  {
    if rising != [] {
      HighTimesAreInside(rising[..|rising| - 1], falling, period);
    }
  }

  method FindFirstAfter(times: seq<real>, t: real) returns (k: nat)
    ensures k == FirstAfter(times, t)
  {
    k := 0;
    while k < |times| && !(times[k] > t)
      invariant k <= |times| && forall i :: 0 <= i < k ==> times[i] <= t
    {
      k := k + 1;
    }
    FirstAfterIs(times, t, k);
  }

  /** d per cent of the whole is the part. */
  ghost predicate IsPercentage(d: real, part: real, whole: real) { d * whole == part * 100.0 }

  /**
   Duty is reported whenever some rise has a high time; the reading is then strictly
   between 0 and 100, so the engine's final range check never rejects one.
   */
  ghost predicate IsDuty(duty: Reading, period: Reading, rising: seq<real>, falling: seq<real>) {
    && (duty.Valid? <==> period.Valid? && HighTimes(rising, falling, period.value) != [])
    && (duty.Valid? ==>
          && 0.0 < duty.value < 100.0
          && exists m :: PossibleMedian(HighTimes(rising, falling, period.value), m)
                         && IsPercentage(duty.value, m, period.value))
  }

  method MeasureDuty(period: Reading, rising: seq<real>, falling: seq<real>) returns (duty: Reading)
    requires period.Valid? ==> period.value > 0.0
    ensures IsDuty(duty, period, rising, falling)
  {
    if period.Invalid? { return Invalid; }
    hide HighTimes, Arranged, MedianOf, PossibleMedian, IsPercentage;
    var p := period.value;
    if rising == [] || falling == [] {
      NoPairsNoHighTimes(rising, falling, p);
      return Invalid;
    }
    var highTimes := CollectHighTimes(rising, falling, p);
    if highTimes == [] { return Invalid; }
    var values := new real[|highTimes|](i requires 0 <= i < |highTimes| => highTimes[i]);
    assert values[..] == highTimes;
    var m := TakeMedian(values);
    HighMedianIsInside(rising, falling, p, values[..], m);
    duty := PercentOfPeriod(m, p);
  }

  method CollectHighTimes(rising: seq<real>, falling: seq<real>, period: real) returns (highTimes: seq<real>)
    ensures highTimes == HighTimes(rising, falling, period)
  {
    highTimes := [];
    for i := 0 to |rising|
      invariant highTimes == HighTimes(rising[..i], falling, period)
    {
      assert rising[..i + 1][..i] == rising[..i];
      var k := FindFirstAfter(falling, rising[i]);
      if k == |falling| { continue; }
      var high := falling[k] - rising[i];
      if high > 0.0 && high < period {
        highTimes := highTimes + [high];
      }
    }
    assert rising[..|rising|] == rising;
  }

  lemma HighMedianIsInside(rising: seq<real>, falling: seq<real>, period: real, after: seq<real>, m: real)
    requires var high := HighTimes(rising, falling, period);
             high != [] && after != [] && Arranged(high, after, |high| / 2) && m == MedianOf(after)
    ensures PossibleMedian(HighTimes(rising, falling, period), m) && 0.0 < m < period
  {
    HighTimesAreInside(rising, falling, period);
    MedianIsInside(HighTimes(rising, falling, period), m, 0.0, period);
  }

  method PercentOfPeriod(m: real, period: real) returns (duty: Reading)
    requires 0.0 < m < period
    ensures duty.Valid? && 0.0 < duty.value < 100.0 && IsPercentage(duty.value, m, period)
  {
    hide IsPercentage;
    var q := m / period;
    var d := q * 100.0;
    ShareIsPercentage(q, m, period);
    duty := if d > 0.0 && d < 100.0 then Valid(d) else Invalid;
  }

  lemma ShareIsPercentage(q: real, m: real, period: real)
    requires 0.0 < m < period && q * period == m
    ensures 0.0 < q < 1.0 && IsPercentage(q * 100.0, m, period)
  {
    ShareOfPeriod(q, m, period);
    assert (q * 100.0) * period == (q * period) * 100.0;
  }

  lemma ShareOfPeriod(q: real, m: real, period: real)
    requires period > 0.0 && q * period == m
    ensures m > 0.0 ==> q > 0.0
    ensures m < period ==> q < 1.0
  {
  }

  lemma {:induction false} NoPairsNoHighTimes(rising: seq<real>, falling: seq<real>, period: real)
    requires rising == [] || falling == []
    ensures HighTimes(rising, falling, period) == []
  {
    if rising != [] {
      NoPairsNoHighTimes(rising[..|rising| - 1], falling, period);
    }
  }

  /** High for one part in four is a duty of 25 per cent. */
  lemma DutyOfAQuarter(duty: Reading)
    requires IsDuty(duty, Valid(4.0), [0.0, 4.0], [1.0])
    ensures duty == Valid(25.0)
  {
    hide HighTimes, Arranged;
    HighOfAQuarter();
    var m :| PossibleMedian([1.0], m) && IsPercentage(duty.value, m, 4.0);
    MedianOfEqual([1.0], m, 1.0);
  }

  lemma HighOfAQuarter()
    ensures HighTimes([0.0, 4.0], [1.0], 4.0) == [1.0]
  {
    assert FirstAfter([1.0], 0.0) == 0;
    assert FirstAfter([1.0], 4.0) == 1;
    assert [0.0, 4.0][..1] == [0.0] && [0.0][..0] == [];
    assert HighTimes([0.0], [1.0], 4.0) == [1.0];
  }

  // ---- pairing on a well-formed list of crossings ---------------------------------------------

  /** The times of the crossings in one direction. */
  function TimesOf(all: seq<Crossing>, rising: bool): seq<real> {
    if all == [] then []
    else
      var last := all[|all| - 1];
      TimesOf(all[..|all| - 1], rising) + if last.rising == rising then [last.time] else []
  }

  lemma {:induction false} TimesOfConcat(a: seq<Crossing>, b: seq<Crossing>, rising: bool)
    ensures TimesOf(a + b, rising) == TimesOf(a, rising) + TimesOf(b, rising)
  {
    if b == [] {
      assert a + b == a;
    } else {
      TimesOfConcat(a, b[..|b| - 1], rising);
      assert (a + b)[..|a + b| - 1] == a + b[..|b| - 1];
    }
  }

  lemma {:induction false} TimesComeFromCrossings(all: seq<Crossing>, rising: bool, i: nat)
    requires i < |TimesOf(all, rising)|
    ensures exists j :: 0 <= j < |all| && all[j] == Crossing(TimesOf(all, rising)[i], rising)
  {
    var front, last := all[..|all| - 1], all[|all| - 1];
    if i < |TimesOf(front, rising)| {
      TimesComeFromCrossings(front, rising, i);
      var j :| 0 <= j < |front| && front[j] == Crossing(TimesOf(front, rising)[i], rising);
      assert all[j] == front[j];
    } else {
      assert all[|all| - 1] == Crossing(TimesOf(all, rising)[i], rising);
    }
  }

  /**
   On increasing, alternating crossings the first fall after a rise is the very next
   crossing, and there is none exactly when the rise is the last one.
   */
  lemma RisePairsWithNext(all: seq<Crossing>, j: nat)
    requires TimesIncrease(all) && DirectionsAlternate(all)
    requires j < |all| && all[j].rising
    ensures var falling, k := TimesOf(all, false), FirstAfter(TimesOf(all, false), all[j].time);
            if j + 1 < |all| then k < |falling| && falling[k] == all[j + 1].time else k == |falling|
  {
    hide TimesOf, FirstAfter;
    var before, rest, falling := all[..j + 1], all[j + 1..], TimesOf(all, false);
    assert all == before + rest;
    TimesOfConcat(before, rest, false);
    var k := |TimesOf(before, false)|;
    forall i | 0 <= i < k ensures falling[i] <= all[j].time {
      TimesComeFromCrossings(before, false, i);
      var m :| 0 <= m < |before| && before[m] == Crossing(TimesOf(before, false)[i], false);
      assert before[m] == all[m] && falling[i] == all[m].time;
    }
    if rest == [] {
      NoTimes(false);
    } else {
      assert rest[0] == all[j + 1];
      FirstTime(rest);
    }
    FirstAfterIs(falling, all[j].time, k);
  }

  lemma NoTimes(rising: bool)
    ensures TimesOf([], rising) == []
  {
  }

  lemma FirstTime(all: seq<Crossing>)
    requires all != []
    ensures var t := TimesOf(all, all[0].rising); t != [] && t[0] == all[0].time
  {
  }

  /** The durations that begin with a crossing in one direction and end with the next one. */
  function Durations(all: seq<Crossing>, rising: bool): seq<real> {
    if |all| < 2 then []
    else
      var n := |all|;
      Durations(all[..n - 1], rising)
      + if all[n - 2].rising == rising then [all[n - 1].time - all[n - 2].time] else []
  }

  /** High and low times together cover the record from its first crossing to its last. */
  lemma {:induction false} HighAndLowTelescope(all: seq<Crossing>)
    requires all != []
    ensures SumOf(Durations(all, true)) + SumOf(Durations(all, false)) == all[|all| - 1].time - all[0].time
  {
    var n := |all|;
    if n >= 2 {
      var front, gap := all[..n - 1], all[n - 1].time - all[n - 2].time;
      HighAndLowTelescope(front);
      SumOfSnoc(Durations(front, true), gap);
      SumOfSnoc(Durations(front, false), gap);
    }
  }

  lemma SumOfSnoc(v: seq<real>, x: real)
    ensures SumOf(v + [x]) == SumOf(v) + x && SumOf(v + []) == SumOf(v)
  {
    assert (v + [x])[..|v|] == v;
    assert v + [] == v;
  }

  /** Counts of rises and falls differ by at most one, and which is ahead follows the first crossing. */
  lemma {:induction false} CountsDifferByOne(all: seq<Crossing>)
    requires DirectionsAlternate(all)
    ensures var r, f := |TimesOf(all, true)|, |TimesOf(all, false)|;
            && r + f == |all|
            && (all != [] ==> r - f == (if all[0].rising == all[|all| - 1].rising then
                                          (if all[0].rising then 1 else -1) else 0))
  {
    if all != [] {
      var front := all[..|all| - 1];
      CountsDifferByOne(front);
      if front != [] {
        assert all[|all| - 1].rising != all[|all| - 2].rising;
      }
    }
  }

  lemma {:induction false} TimesOfIncrease(all: seq<Crossing>, rising: bool)
    requires TimesIncrease(all)
    ensures StrictlyIncreasing(TimesOf(all, rising))
  {
    if all != [] {
      var front, last := all[..|all| - 1], all[|all| - 1];
      TimesOfIncrease(front, rising);
      var t := TimesOf(front, rising);
      forall i | 0 <= i < |t| ensures t[i] < last.time {
        TimesComeFromCrossings(front, rising, i);
        var j :| 0 <= j < |front| && front[j] == Crossing(t[i], rising);
        assert all[j] == front[j];
      }
    }
  }

  // ---- what is reported of a well-formed list of crossings ------------------------------------

  lemma GapsFit(all: seq<Crossing>, rising: bool)
    requires all != [] && TimesIncrease(all)
    ensures var gaps := Gaps(TimesOf(all, rising));
            forall i :: 0 <= i < |gaps| ==> gaps[i] <= all[|all| - 1].time - all[0].time
  {
    hide TimesOf, TimesIncrease;
    var times := TimesOf(all, rising);
    forall i | 0 <= i < |Gaps(times)| ensures Gaps(times)[i] <= all[|all| - 1].time - all[0].time {
      TimeIsBetween(all, rising, i);
      TimeIsBetween(all, rising, i + 1);
    }
  }

  lemma TimeIsBetween(all: seq<Crossing>, rising: bool, i: nat)
    requires TimesIncrease(all) && i < |TimesOf(all, rising)|
    ensures all != [] && all[0].time <= TimesOf(all, rising)[i] <= all[|all| - 1].time
  {
    hide TimesOf;
    TimesComeFromCrossings(all, rising, i);
  }

  /**
   Increasing, alternating crossings have a period exactly when there are three of them,
   and it fits between the first and the last.
   */
  lemma PeriodNeedsThree(period: Reading, frequency: Reading, all: seq<Crossing>)
    requires TimesIncrease(all) && DirectionsAlternate(all)
    requires IsPeriod(period, frequency, TimesOf(all, true), TimesOf(all, false))
    ensures period.Valid? <==> |all| >= 3
    ensures period.Valid? ==> 0.0 < period.value <= all[|all| - 1].time - all[0].time
  {
    hide TimesOf, PossibleMedian, TimesIncrease, DirectionsAlternate, StrictlyIncreasing, Gaps;
    var rising, falling := TimesOf(all, true), TimesOf(all, false);
    CountsDifferByOne(all);
    TimesOfIncrease(all, true);
    TimesOfIncrease(all, false);
    PeriodIsPositive(period, frequency, rising, falling);
    var direction := |rising| >= 2;
    var times := Reference(rising, falling);
    assert times == TimesOf(all, direction);
    if period.Valid? {
      var m :| PossibleMedian(Gaps(times), m) && PeriodFrom(m, period, frequency);
      GapsFit(all, direction);
      MedianIsAtMost(Gaps(times), m, all[|all| - 1].time - all[0].time);
    }
  }

  /** Crossing j is a rise, and the next crossing comes within a period. */
  predicate HighWithin(all: seq<Crossing>, j: nat, period: real) {
    j + 1 < |all| && all[j].rising && all[j + 1].time - all[j].time < period
  }

  lemma OneHighTimeIff(all: seq<Crossing>, j: nat, period: real)
    requires TimesIncrease(all) && DirectionsAlternate(all) && j < |all|
    ensures HighWithin(all, j, period)
            <==> all[j].rising && HighTime(all[j].time, TimesOf(all, false), period) != []
  {
    hide FirstAfter, DirectionsAlternate, TimesOf;
    if all[j].rising {
      RisePairsWithNext(all, j);
    }
  }

  lemma HighTimesGrow(all: seq<Crossing>, n: nat, falling: seq<real>, period: real)
    requires 0 < n <= |all|
    ensures var c := all[n - 1];
            HighTimes(TimesOf(all[..n], true), falling, period)
            == HighTimes(TimesOf(all[..n - 1], true), falling, period)
               + if c.rising then HighTime(c.time, falling, period) else []
  {
    hide HighTime;
    var c, before := all[n - 1], TimesOf(all[..n - 1], true);
    assert all[..n][..n - 1] == all[..n - 1];
    if c.rising {
      assert (before + [c.time])[..|before|] == before;
    } else {
      assert before + [] == before;
    }
  }

  lemma {:induction false} SomeHighTimeIff(all: seq<Crossing>, n: nat, period: real)
    requires TimesIncrease(all) && DirectionsAlternate(all) && n <= |all|
    ensures HighTimes(TimesOf(all[..n], true), TimesOf(all, false), period) != []
            <==> exists j :: 0 <= j < n && HighWithin(all, j, period)
  {
    if n > 0 {
      hide TimesIncrease, DirectionsAlternate, HighWithin, HighTime, HighTimes, TimesOf;
      SomeHighTimeIff(all, n - 1, period);
      OneHighTimeIff(all, n - 1, period);
      HighTimesGrow(all, n, TimesOf(all, false), period);
    } else {
      NoTimes(true);
    }
  }

  /** With increasing, alternating crossings a duty is reported exactly when some rise is followed within a period. */
  lemma DutyIff(duty: Reading, period: Reading, all: seq<Crossing>)
    requires TimesIncrease(all) && DirectionsAlternate(all)
    requires IsDuty(duty, period, TimesOf(all, true), TimesOf(all, false))
    ensures duty.Valid? <==> period.Valid? && exists j :: 0 <= j < |all| && HighWithin(all, j, period.value)
  {
    hide TimesIncrease, DirectionsAlternate, HighWithin, HighTimes, TimesOf;
    if period.Valid? {
      SomeHighTimeIff(all, |all|, period.value);
      assert all[..|all|] == all;
    }
  }
}
