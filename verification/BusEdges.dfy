/**
 The edge summary the bus reports for one channel: the crossings of a time window,
 split by direction, with the time each rise stays high.
 */
module BusEdges {
  import opened Sequences
  import opened EdgeDetector
  import opened PulseTiming

  /** `from` and `to` default to minus and plus infinity. */
  datatype Bound = Unbounded | At(time: real)

  datatype Polarity = Rising | Falling | Both

  predicate InWindow(t: real, from: Bound, to: Bound) {
    && (from.At? ==> !(t < from.time))
    && (to.At? ==> !(t > to.time))
  }

  predicate Wanted(c: Crossing, polarity: Polarity) {
    !((polarity.Rising? && !c.rising) || (polarity.Falling? && c.rising))
  }

  /** The crossings of the window, with times taken from t0. */
  function Window(all: seq<Crossing>, t0: real, from: Bound, to: Bound): seq<Crossing> {
    if all == [] then []
    else
      var last := all[|all| - 1];
      Window(all[..|all| - 1], t0, from, to)
      + if InWindow(last.time - t0, from, to) then [Crossing(last.time - t0, last.rising)] else []
  }

  function Matching(w: seq<Crossing>, polarity: Polarity): seq<Crossing> {
    if w == [] then []
    else
      var last := w[|w| - 1];
      Matching(w[..|w| - 1], polarity) + if Wanted(last, polarity) then [last] else []
  }

  function Take(w: seq<Crossing>, most: nat): seq<Crossing> { if |w| <= most then w else w[..most] }

  datatype Summary = Summary(
    rise: seq<real>, fall: seq<real>, risingIntervals: seq<real>, fallingIntervals: seq<real>,
    high: seq<real>, listed: seq<Crossing>)

  /** The high time of each rise that has a fall after it. */
  function AllHighTimes(rise: seq<real>, fall: seq<real>): seq<real> {
    if rise == [] then []
    else
      var r := rise[|rise| - 1];
      var k := FirstAfter(fall, r);
      AllHighTimes(rise[..|rise| - 1], fall) + if k < |fall| then [fall[k] - r] else []
  }

  /** What std::upper_bound requires: the times up to t all come before those after it. */
  predicate Partitioned(times: seq<real>, t: real) {
    forall i, j :: 0 <= i <= j < |times| && times[i] > t ==> times[j] > t
  }

  predicate AllPartitioned(fall: seq<real>, rise: seq<real>) {
    forall i :: 0 <= i < |rise| ==> Partitioned(fall, rise[i])
  }

  lemma SortedIsPartitioned(fall: seq<real>, rise: seq<real>)
    requires IsSorted(fall)
    ensures AllPartitioned(fall, rise)
  {
  }

  /** std::upper_bound: a binary search, with a meaning on what it requires. */
  method UpperBound(times: seq<real>, t: real) returns (k: nat)
    ensures k <= |times|
    ensures Partitioned(times, t) ==> k == FirstAfter(times, t)
  {
    var after: nat --> bool := i requires 0 <= i < |times| => times[i] > t;
    k := PartitionPoint(|times|, after);
    assert forall i :: 0 <= i < |times| ==> (after(i) <==> times[i] > t);
    if Partitioned(times, t) {
      assert StaysTrue(|times|, after);
      forall i | 0 <= i < |times| ensures times[i] > t <==> k <= i {
        assert after(i) <==> k <= i;
      }
      FirstAfterIs(times, t, k);
    }
  }

  method Differences(v: seq<real>) returns (d: seq<real>)
    ensures d == Gaps(v)
  {
    d := [];
    if v == [] { return; }
    for i := 1 to |v|
      invariant d == Gaps(v)[..i - 1]
    {
      d := d + [v[i] - v[i - 1]];
    }
  }

  method Summarise(all: seq<Crossing>, t0: real, from: Bound, to: Bound, polarity: Polarity, maxEdges: nat)
    returns (s: Summary)
    ensures var w := Window(all, t0, from, to);
            && s.rise == TimesOf(w, true) && s.fall == TimesOf(w, false)
            && s.risingIntervals == Gaps(s.rise) && s.fallingIntervals == Gaps(s.fall)
            && s.listed == Take(Matching(w, polarity), maxEdges)
    ensures AllPartitioned(s.fall, s.rise) ==> s.high == AllHighTimes(s.rise, s.fall)
  {
    var rise, fall, listed := Split(all, t0, from, to, polarity, maxEdges);
    var high := HighTimesOf(rise, fall);
    var risingIntervals := Differences(rise);
    var fallingIntervals := Differences(fall);
    s := Summary(rise, fall, risingIntervals, fallingIntervals, high, listed);
  }

  method HighTimesOf(rise: seq<real>, fall: seq<real>) returns (high: seq<real>)
    ensures AllPartitioned(fall, rise) ==> high == AllHighTimes(rise, fall)
  {
    high := [];
    for i := 0 to |rise|
      invariant AllPartitioned(fall, rise) ==> high == AllHighTimes(rise[..i], fall)
    {
      assert rise[..i + 1][..i] == rise[..i];
      var k := UpperBound(fall, rise[i]);
      if k < |fall| {
        high := high + [fall[k] - rise[i]];
      }
    }
    assert rise[..|rise|] == rise;
  }

  method Split(all: seq<Crossing>, t0: real, from: Bound, to: Bound, polarity: Polarity, maxEdges: nat)
    returns (rise: seq<real>, fall: seq<real>, listed: seq<Crossing>)
    ensures var w := Window(all, t0, from, to);
            && rise == TimesOf(w, true) && fall == TimesOf(w, false)
            && listed == Take(Matching(w, polarity), maxEdges)
  {
    hide InWindow, Wanted;
    rise, fall, listed := [], [], [];
    ghost var w: seq<Crossing> := [];
    for i := 0 to |all|
      invariant w == Window(all[..i], t0, from, to)
      invariant rise == TimesOf(w, true) && fall == TimesOf(w, false)
      invariant listed == Take(Matching(w, polarity), maxEdges)
    {
      assert all[..i + 1][..i] == all[..i];
      var t := all[i].time - t0;
      if !InWindow(t, from, to) { continue; }
      var c := Crossing(t, all[i].rising);
      WindowGrows(w, c, polarity, maxEdges);
      w := w + [c];
      if c.rising { rise := rise + [t]; } else { fall := fall + [t]; }
      if !Wanted(c, polarity) { continue; }
      if |listed| < maxEdges {
        listed := listed + [c];
      }
    }
    assert all[..|all|] == all;
  }

  lemma WindowGrows(w: seq<Crossing>, c: Crossing, polarity: Polarity, most: nat)
    ensures TimesOf(w + [c], c.rising) == TimesOf(w, c.rising) + [c.time]
    ensures TimesOf(w + [c], !c.rising) == TimesOf(w, !c.rising)
    ensures Take(Matching(w + [c], polarity), most)
         == Take(Matching(w, polarity), most)
            + if Wanted(c, polarity) && |Take(Matching(w, polarity), most)| < most then [c] else []
  {
  }

  // ---- what a summary selects ----------------------------------------------------------------

  /** `at` lists, in order, the positions below n that satisfy a condition. */
  ghost predicate Selects(at: seq<nat>, n: nat, keep: nat -> bool) {
    Picks(at, n) && forall j :: 0 <= j < n ==> (j in at <==> keep(j))
  }

  lemma SelectsMore(at: seq<nat>, n: nat, keep: nat -> bool)
    requires Selects(at, n, keep)
    ensures Selects(at + if keep(n) then [n] else [], n + 1, keep)
  {
    assert at + [] == at;
    assert forall j :: j in at + [n] <==> j in at || j == n;
  }

  lemma WindowUpTo(all: seq<Crossing>, n: nat, t0: real, from: Bound, to: Bound)
    requires n < |all|
    ensures var c := Crossing(all[n].time - t0, all[n].rising);
            Window(all[..n + 1], t0, from, to)
            == Window(all[..n], t0, from, to) + if InWindow(c.time, from, to) then [c] else []
  {
    hide InWindow;
    assert all[..n + 1][..n] == all[..n];
  }

  lemma {:induction false} TimesUpTo(all: seq<Crossing>, n: nat, t0: real, from: Bound, to: Bound, rising: bool)
    returns (at: seq<nat>)
    requires n <= |all|
    ensures Selects(at, n, (j: nat) => j < |all| && all[j].rising == rising && InWindow(all[j].time - t0, from, to))
    ensures |at| == |TimesOf(Window(all[..n], t0, from, to), rising)|
    ensures forall i :: 0 <= i < |at| ==>
      at[i] < |all| && TimesOf(Window(all[..n], t0, from, to), rising)[i] == all[at[i]].time - t0
  {
    hide InWindow, Window, TimesOf, Selects;
    if n == 0 {
      at := [];
      NothingSelected(all, t0, from, to, rising, Both);
    } else {
      at := TimesUpTo(all, n - 1, t0, from, to, rising);
      SelectsMore(at, n - 1, (j: nat) => j < |all| && all[j].rising == rising && InWindow(all[j].time - t0, from, to));
      WindowUpTo(all, n - 1, t0, from, to);
      WindowGrows(Window(all[..n - 1], t0, from, to), Crossing(all[n - 1].time - t0, all[n - 1].rising), Both, 0);
      var w := Window(all[..n - 1], t0, from, to);
      assert w + [] == w;
      at := at + if all[n - 1].rising == rising && InWindow(all[n - 1].time - t0, from, to) then [n - 1] else [];
    }
  }

  lemma NothingSelected(all: seq<Crossing>, t0: real, from: Bound, to: Bound, rising: bool, polarity: Polarity)
    ensures Window(all[..0], t0, from, to) == []
    ensures TimesOf([], rising) == [] && Matching([], polarity) == []
    ensures forall keep: nat -> bool :: Selects([], 0, keep)
  {
  }

  lemma MatchingGrows(w: seq<Crossing>, c: Crossing, polarity: Polarity)
    ensures Matching(w + [c], polarity) == Matching(w, polarity) + if Wanted(c, polarity) then [c] else []
  {
    hide Wanted;
    assert (w + [c])[..|w|] == w;
  }

  lemma {:induction false} MatchesUpTo(all: seq<Crossing>, n: nat, t0: real, from: Bound, to: Bound, polarity: Polarity)
    returns (at: seq<nat>)
    requires n <= |all|
    ensures Selects(at, n, (j: nat) => j < |all| && Wanted(all[j], polarity) && InWindow(all[j].time - t0, from, to))
    ensures |at| == |Matching(Window(all[..n], t0, from, to), polarity)|
    ensures forall i :: 0 <= i < |at| ==>
      && at[i] < |all|
      && Matching(Window(all[..n], t0, from, to), polarity)[i] == Crossing(all[at[i]].time - t0, all[at[i]].rising)
  {
    hide InWindow, Window, Matching, Selects;
    if n == 0 {
      at := [];
      NothingSelected(all, t0, from, to, true, polarity);
    } else {
      at := MatchesUpTo(all, n - 1, t0, from, to, polarity);
      SelectsMore(at, n - 1, (j: nat) => j < |all| && Wanted(all[j], polarity) && InWindow(all[j].time - t0, from, to));
      WindowUpTo(all, n - 1, t0, from, to);
      var w, c := Window(all[..n - 1], t0, from, to), Crossing(all[n - 1].time - t0, all[n - 1].rising);
      MatchingGrows(w, c, polarity);
      assert w + [] == w && Matching(w, polarity) + [] == Matching(w, polarity);
      at := at + if Wanted(all[n - 1], polarity) && InWindow(c.time, from, to) then [n - 1] else [];
    }
  }

  /** The rises (or falls) of a summary are those within the bounds, in order and no others. */
  lemma TimesAreExact(all: seq<Crossing>, t0: real, from: Bound, to: Bound, rising: bool) returns (at: seq<nat>)
    ensures Picks(at, |all|) && |at| == |TimesOf(Window(all, t0, from, to), rising)|
    ensures forall i :: 0 <= i < |at| ==> TimesOf(Window(all, t0, from, to), rising)[i] == all[at[i]].time - t0
    ensures forall j :: 0 <= j < |all| ==>
      (j in at <==> && all[j].rising == rising
                    && (from.At? ==> from.time <= all[j].time - t0) && (to.At? ==> all[j].time - t0 <= to.time))
  {
    hide Window, TimesOf;
    at := TimesUpTo(all, |all|, t0, from, to, rising);
    assert all[..|all|] == all;
  }

  /** The crossings of the polarity asked for, likewise. */
  lemma MatchesAreExact(all: seq<Crossing>, t0: real, from: Bound, to: Bound, polarity: Polarity)
    returns (at: seq<nat>)
    ensures Picks(at, |all|) && |at| == |Matching(Window(all, t0, from, to), polarity)|
    ensures forall i :: 0 <= i < |at| ==>
      Matching(Window(all, t0, from, to), polarity)[i] == Crossing(all[at[i]].time - t0, all[at[i]].rising)
    ensures forall j :: 0 <= j < |all| ==>
      (j in at <==> && (polarity == Rising ==> all[j].rising) && (polarity == Falling ==> !all[j].rising)
                    && (from.At? ==> from.time <= all[j].time - t0) && (to.At? ==> all[j].time - t0 <= to.time))
  {
    hide Window, Matching;
    at := MatchesUpTo(all, |all|, t0, from, to, polarity);
    assert all[..|all|] == all;
  }

  /** Those listed are the first of them, up to the number asked for. */
  lemma ListedAreTheFirst(w: seq<Crossing>, most: nat)
    ensures Take(w, most) <= w && |Take(w, most)| == if |w| < most then |w| else most
  {
  }

  // ---- a window of good crossings is good --------------------------------------------------

  function Shifted(all: seq<Crossing>, t0: real): (w: seq<Crossing>)
    ensures |w| == |all|
  {
    seq(|all|, i requires 0 <= i < |all| => Crossing(all[i].time - t0, all[i].rising))
  }

  /** The window is the run from lo to hi, and ended before hi if it did not reach it. */
  ghost predicate IsRun(all: seq<Crossing>, t0: real, from: Bound, to: Bound, lo: nat, hi: nat) {
    && lo <= hi <= |all| && Window(all, t0, from, to) == Shifted(all[lo..hi], t0)
    && (forall i :: lo <= i < hi ==> InWindow(all[i].time - t0, from, to))
    && (hi < |all| ==> hi == lo || !InWindow(all[hi].time - t0, from, to))
  }

  /** On increasing times a window is a run of consecutive crossings. */
  lemma {:induction false} WindowIsARun(all: seq<Crossing>, t0: real, from: Bound, to: Bound) returns (lo: nat, hi: nat)
    requires TimesIncrease(all)
    ensures IsRun(all, t0, from, to, lo, hi)
  {
    hide InWindow, TimesIncrease, Shifted, Window, IsRun;
    if all == [] {
      lo, hi := 0, 0;
      EmptyRun(t0, from, to);
    } else {
      IncreasingFront(all);
      lo, hi := WindowIsARun(all[..|all| - 1], t0, from, to);
      lo, hi := LongerRun(all, t0, from, to, lo, hi);
    }
  }

  lemma EmptyRun(t0: real, from: Bound, to: Bound)
    ensures IsRun([], t0, from, to, 0, 0)
  {
  }

  lemma LongerRun(all: seq<Crossing>, t0: real, from: Bound, to: Bound, lo: nat, hi: nat) returns (lo': nat, hi': nat)
    requires all != [] && TimesIncrease(all) && IsRun(all[..|all| - 1], t0, from, to, lo, hi)
    ensures IsRun(all, t0, from, to, lo', hi')
  {
    hide InWindow, TimesIncrease, Shifted, Window;
    var n := |all| - 1;
    var front := all[..n];
    WindowUpTo(all, n, t0, from, to);
    assert all[..n + 1] == all;
    assert front[lo..hi] == all[lo..hi];
    assert forall i :: 0 <= i < n ==> front[i] == all[i];
    if !InWindow(all[n].time - t0, from, to) {
      lo', hi' := lo, hi;
    } else if lo == hi {
      lo', hi' := n, n + 1;
      ShiftedParts(all, lo, lo, t0);
      ShiftedParts(all, n, n, t0);
    } else {
      RunIsUnbroken(all, t0, from, to, lo, hi);
      lo', hi' := lo, n + 1;
      ShiftedParts(all, lo, n, t0);
    }
  }

  lemma IncreasingFront(all: seq<Crossing>)
    requires all != [] && TimesIncrease(all)
    ensures TimesIncrease(all[..|all| - 1])
  {
  }

  lemma ShiftedParts(all: seq<Crossing>, lo: nat, hi: nat, t0: real)
    requires lo <= hi <= |all|
    ensures lo == hi ==> Shifted(all[lo..hi], t0) == []
    ensures hi < |all| ==>
      Shifted(all[lo..hi + 1], t0) == Shifted(all[lo..hi], t0) + [Crossing(all[hi].time - t0, all[hi].rising)]
  {
  }

  lemma RunIsUnbroken(all: seq<Crossing>, t0: real, from: Bound, to: Bound, lo: nat, hi: nat)
    requires TimesIncrease(all) && lo < hi < |all|
    requires InWindow(all[lo].time - t0, from, to) && InWindow(all[|all| - 1].time - t0, from, to)
    requires hi < |all| - 1 ==> !InWindow(all[hi].time - t0, from, to)
    ensures hi == |all| - 1
  {
  }

  /** Any window of increasing, alternating crossings is increasing and alternating. */
  lemma WindowIsWellFormed(all: seq<Crossing>, t0: real, from: Bound, to: Bound)
    requires TimesIncrease(all) && DirectionsAlternate(all)
    ensures TimesIncrease(Window(all, t0, from, to)) && DirectionsAlternate(Window(all, t0, from, to))
  {
    var lo, hi := WindowIsARun(all, t0, from, to);
  }

  lemma TimesAreSorted(w: seq<Crossing>, rising: bool)
    requires TimesIncrease(w)
    ensures IsSorted(TimesOf(w, rising))
  {
    TimesOfIncrease(w, rising);
  }

  // ---- what the summary says --------------------------------------------------------------------

  /** High times, one per rise and each up to the very next crossing. */
  lemma {:induction false} HighTimesAreDurations(w: seq<Crossing>, n: nat)
    requires TimesIncrease(w) && DirectionsAlternate(w) && n <= |w|
    ensures AllHighTimes(TimesOf(w[..n], true), TimesOf(w, false))
         == Durations(w[..if n < |w| then n + 1 else n], true)
  {
    if n == 0 {
      assert |w[..if n < |w| then n + 1 else n]| < 2;
    } else {
      hide FirstAfter, TimesIncrease, DirectionsAlternate, Durations, TimesOf, AllHighTimes;
      HighTimesAreDurations(w, n - 1);
      FirstOnes(w, n);
      if w[n - 1].rising {
        RisePairsWithNext(w, n - 1);
        OneMoreHighTime(TimesOf(w[..n - 1], true), TimesOf(w, false), w[n - 1].time);
      }
    }
  }

  lemma OneMoreHighTime(rise: seq<real>, fall: seq<real>, r: real)
    ensures var k := FirstAfter(fall, r);
            AllHighTimes(rise + [r], fall) == AllHighTimes(rise, fall) + if k < |fall| then [fall[k] - r] else []
  {
    assert (rise + [r])[..|rise|] == rise;
  }

  lemma FirstOnes(w: seq<Crossing>, n: nat)
    requires 0 < n <= |w|
    ensures TimesOf(w[..n], true) == TimesOf(w[..n - 1], true) + if w[n - 1].rising then [w[n - 1].time] else []
    ensures n < |w| ==> Durations(w[..n + 1], true)
                        == Durations(w[..n], true) + if w[n - 1].rising then [w[n].time - w[n - 1].time] else []
    ensures TimesOf(w[..n - 1], true) + [] == TimesOf(w[..n - 1], true)
    ensures Durations(w[..n], true) + [] == Durations(w[..n], true)
  {
    assert w[..n][..n - 1] == w[..n - 1];
    if n < |w| {
      assert w[..n + 1][..n] == w[..n];
    }
  }

  /**
   For a record whose crossings increase and alternate, in any window: the binary
   search and the engine's linear search pair each rise with the very next crossing,
   the numbers of rises and falls differ by at most one, and high and low times
   together span the window's crossings.
   */
  lemma SummaryIsConsistent(all: seq<Crossing>, t0: real, from: Bound, to: Bound)
    requires TimesIncrease(all) && DirectionsAlternate(all)
    ensures var w := Window(all, t0, from, to);
            var rise, fall := TimesOf(w, true), TimesOf(w, false);
            && IsSorted(fall) && AllPartitioned(fall, rise)
            && AllHighTimes(rise, fall) == Durations(w, true)
            && -1 <= |rise| - |fall| <= 1
            && (w != [] ==>
                  SumOf(AllHighTimes(rise, fall)) + SumOf(Durations(w, false)) == w[|w| - 1].time - w[0].time)
  {
    hide Window, TimesIncrease, DirectionsAlternate;
    var w := Window(all, t0, from, to);
    WindowIsWellFormed(all, t0, from, to);
    TimesAreSorted(w, false);
    SortedIsPartitioned(TimesOf(w, false), TimesOf(w, true));
    HighTimesAreDurations(w, |w|);
    assert w[..|w|] == w;
    CountsDifferByOne(w);
    if w != [] {
      HighAndLowTelescope(w);
    }
  }

  /** The same, straight from the samples: it holds of every record whose crossings are bracketed. */
  lemma SummaryOfBracketedRecord(v: seq<real>, dt: real, level: real, hysteresis: real,
                                 t0: real, from: Bound, to: Bound)
    requires |v| >= 2 && hysteresis > 0.0 && dt > 0.0
    requires AllBracketed(v, Accepted(v, 1, v[0] > level, BandAround(level, hysteresis)), v[0] > level, level)
    ensures var w := Window(Crossings(v, dt, level, hysteresis), t0, from, to);
            var rise, fall := TimesOf(w, true), TimesOf(w, false);
            && AllPartitioned(fall, rise)
            && AllHighTimes(rise, fall) == Durations(w, true)
            && -1 <= |rise| - |fall| <= 1
            && (w != [] ==>
                  SumOf(AllHighTimes(rise, fall)) + SumOf(Durations(w, false)) == w[|w| - 1].time - w[0].time)
  {
    hide Crossings, Accepted, AllBracketed, Window, AllHighTimes, Durations, TimesOf;
    BracketedTimesIncrease(v, level, hysteresis, dt);
    CrossingsAlternate(v, dt, level, hysteresis);
    SummaryIsConsistent(Crossings(v, dt, level, hysteresis), t0, from, to);
  }

  /**
   A signal that creeps through the band on its way down: its second fall is timed before
   its first rise, so the falls are not in order and the search from that rise is
   one std::upper_bound does not allow.
   */
  lemma CreepingFallIsOutOfOrder()
    ensures var all := Crossings([-10.0, 10.0, -10.0, 10.0, -9.0, -10.0], 1.0, 0.0, 20.0);
            var w := Window(all, 0.0, Unbounded, Unbounded);
            && all == [Crossing(0.5, true), Crossing(1.5, false), Crossing(2.5, true), Crossing(-5.0, false)]
            && TimesOf(w, true) == [0.5, 2.5] && TimesOf(w, false) == [1.5, -5.0]
            && !Partitioned(TimesOf(w, false), 0.5)
  {
    hide Crossings, Window, TimesOf;
    CreepingCrossings([-10.0, 10.0, -10.0, 10.0, -9.0, -10.0]);
    WindowOfAll([Crossing(0.5, true), Crossing(1.5, false), Crossing(2.5, true), Crossing(-5.0, false)]);
    TimesOfTwoPulses(0.5, 1.5, 2.5, -5.0);
    var falls := [1.5, -5.0];
    assert falls[0] > 0.5 && !(falls[1] > 0.5);
  }

  lemma TimesOfTwoPulses(a: real, b: real, c: real, d: real)
    ensures var w := [Crossing(a, true), Crossing(b, false), Crossing(c, true), Crossing(d, false)];
            TimesOf(w, true) == [a, c] && TimesOf(w, false) == [b, d]
  {
    hide TimesOf;
    var w := [Crossing(a, true), Crossing(b, false), Crossing(c, true), Crossing(d, false)];
    NoTimes(true);
    NoTimes(false);
    OneMoreTime(w, 0);
    OneMoreTime(w, 1);
    OneMoreTime(w, 2);
    OneMoreTime(w, 3);
    assert w[..0] == [] && w[..1] == [w[0]] && w[..2] == [w[0], w[1]] && w[..3] == [w[0], w[1], w[2]] && w[..4] == w;
    assert TimesOf(w[..1], true) == [a] && TimesOf(w[..1], false) == [];
    assert TimesOf(w[..2], true) == [a] && TimesOf(w[..2], false) == [b];
    assert TimesOf(w[..3], true) == [a, c] && TimesOf(w[..3], false) == [b];
  }

  lemma OneMoreTime(w: seq<Crossing>, n: nat)
    requires n < |w|
    ensures TimesOf(w[..n + 1], true) == TimesOf(w[..n], true) + if w[n].rising then [w[n].time] else []
    ensures TimesOf(w[..n + 1], false) == TimesOf(w[..n], false) + if w[n].rising then [] else [w[n].time]
  {
    assert w[..n + 1][..n] == w[..n];
  }

  lemma CreepingCrossings(v: seq<real>)
    requires v == [-10.0, 10.0, -10.0, 10.0, -9.0, -10.0]
    ensures Crossings(v, 1.0, 0.0, 20.0)
         == [Crossing(0.5, true), Crossing(1.5, false), Crossing(2.5, true), Crossing(-5.0, false)]
  {
    var band := BandAround(0.0, 20.0);
    assert band == Band(-10.0, 10.0);
    assert Accepted(v, 5, true, band) == [5] && Accepted(v, 4, true, band) == [5];
    assert Accepted(v, 3, false, band) == [3, 5];
    assert Accepted(v, 2, true, band) == [2, 3, 5];
    assert Accepted(v, 1, false, band) == [1, 2, 3, 5];
    assert CrossingTime(v, 1, 0.0, 1.0) == 0.5 && CrossingTime(v, 2, 0.0, 1.0) == 1.5;
    assert CrossingTime(v, 3, 0.0, 1.0) == 2.5 && CrossingTime(v, 5, 0.0, 1.0) == -5.0;
  }

  lemma {:induction false} WindowOfAll(all: seq<Crossing>)
    ensures Window(all, 0.0, Unbounded, Unbounded) == all
  {
    if all != [] {
      WindowOfAll(all[..|all| - 1]);
    }
  }

  /** The engine keeps those of the bus's high times that are shorter than a period. */
  function Shorter(high: seq<real>, period: real): seq<real> {
    if high == [] then []
    else
      var h := high[|high| - 1];
      Shorter(high[..|high| - 1], period) + if 0.0 < h < period then [h] else []
  }

  lemma {:induction false} EngineAndBusAgree(rise: seq<real>, fall: seq<real>, period: real)
    ensures HighTimes(rise, fall, period) == Shorter(AllHighTimes(rise, fall), period)
  {
    if rise != [] {
      var front, r := rise[..|rise| - 1], rise[|rise| - 1];
      EngineAndBusAgree(front, fall, period);
      var k, high := FirstAfter(fall, r), AllHighTimes(front, fall);
      if k < |fall| {
        assert (high + [fall[k] - r])[..|high|] == high;
      } else {
        assert high + [] == high;
      }
    }
  }
}
