/**
 Rise and fall times: from a sample in the middle of an edge, backwards to the level
 it leaves and forwards to the one it reaches.
 */
module EdgeTiming {
  import opened EdgeDetector
  import opened PulseTiming

  /** Between samples i-1 and i the signal leaves a level, in the direction of the edge. */
  predicate Leaves(v: seq<real>, i: nat, level: real, rising: bool)
    requires 1 <= i < |v|
  {
    if rising then v[i - 1] <= level < v[i] else v[i - 1] >= level > v[i]
  }

  /** Between samples i-1 and i the signal reaches a level. */
  predicate Reaches(v: seq<real>, i: nat, level: real, rising: bool)
    requires 1 <= i < |v|
  {
    if rising then v[i - 1] < level <= v[i] else v[i - 1] > level >= v[i]
  }

  /** A step from a sample exactly at the level leaves it, and a step to one reaches it; not the other way round. */
  lemma AtTheLevel(v: seq<real>, i: nat, level: real, rising: bool)
    requires 1 <= i < |v| && if rising then v[i - 1] < v[i] else v[i - 1] > v[i]
    ensures v[i - 1] == level ==> Leaves(v, i, level, rising) && !Reaches(v, i, level, rising)
    ensures v[i] == level ==> Reaches(v, i, level, rising) && !Leaves(v, i, level, rising)
  {
  }

  /** The last place at or before `mid` where the level is left. */
  ghost predicate LastLeft(v: seq<real>, mid: nat, level: real, rising: bool, i: nat)
    requires mid < |v|
  {
    1 <= i <= mid && Leaves(v, i, level, rising) && forall j :: i < j <= mid ==> !Leaves(v, j, level, rising)
  }

  /** The first place at or after `mid` where the level is reached. */
  ghost predicate FirstReached(v: seq<real>, mid: nat, level: real, rising: bool, i: nat) {
    && 1 <= i < |v| && mid <= i && Reaches(v, i, level, rising)
    && forall j :: 1 <= j < i && mid <= j ==> !Reaches(v, j, level, rising)
  }

  method CrossTimeBefore(v: seq<real>, mid: nat, level: real, rising: bool, dt: real)
    returns (found: bool, time: real, ghost at: nat)
    requires mid < |v|
    ensures found ==> LastLeft(v, mid, level, rising, at) && time == CrossingTime(v, at, level, dt)
    ensures !found ==> forall j :: 1 <= j <= mid ==> !Leaves(v, j, level, rising)
  {
    found, time, at := false, 0.0, 0;
    var i := mid;
    while i >= 1
      invariant 0 <= i <= mid
      invariant forall j :: i < j <= mid ==> !Leaves(v, j, level, rising)
    {
      if Leaves(v, i, level, rising) {
        return true, CrossingTime(v, i, level, dt), i;
      }
      i := i - 1;
    }
  }

  method CrossTimeAfter(v: seq<real>, from: nat, level: real, rising: bool, dt: real)
    returns (found: bool, time: real, ghost at: nat)
    ensures found ==> FirstReached(v, from, level, rising, at) && time == CrossingTime(v, at, level, dt)
    ensures !found ==> forall j :: 1 <= j < |v| && from <= j ==> !Reaches(v, j, level, rising)
  {
    found, time, at := false, 0.0, 0;
    var i := if from < 1 then 1 else from;
    while i < |v|
      invariant 1 <= i
      invariant forall j :: 1 <= j < i && from <= j && j < |v| ==> !Reaches(v, j, level, rising)
      decreases |v| - i
    {
      if Reaches(v, i, level, rising) {
        return true, CrossingTime(v, i, level, dt), i;
      }
      i := i + 1;
    }
  }

  lemma LeavingTime(v: seq<real>, i: nat, level: real, rising: bool, dt: real)
    requires 1 <= i < |v| && dt > 0.0 && Leaves(v, i, level, rising)
    ensures SampleTime(i - 1, dt) <= CrossingTime(v, i, level, dt) < SampleTime(i, dt)
  {
    Fraction(v[i - 1], v[i], level);
    var f, n := (level - v[i - 1]) / (v[i] - v[i - 1]), (i - 1) as real;
    PlaceInStep(n, f, dt);
    assert i as real == n + 1.0;
    assert CrossingTime(v, i, level, dt) == (n + f) * dt;
    assert SampleTime(i, dt) == (n + 1.0) * dt;
  }

  lemma ReachingTime(v: seq<real>, i: nat, level: real, rising: bool, dt: real)
    requires 1 <= i < |v| && dt > 0.0 && Reaches(v, i, level, rising)
    ensures SampleTime(i - 1, dt) < CrossingTime(v, i, level, dt) <= SampleTime(i, dt)
  {
    var f, n := (level - v[i - 1]) / (v[i] - v[i - 1]), (i - 1) as real;
    ReachingFraction(level - v[i - 1], v[i] - v[i - 1], f);
    EndOfStep(n, f, dt);
    assert i as real == n + 1.0;
    assert CrossingTime(v, i, level, dt) == (n + f) * dt;
    assert SampleTime(i, dt) == (n + 1.0) * dt;
  }

  lemma EndOfStep(n: real, f: real, dt: real)
    requires dt > 0.0 && 0.0 < f <= 1.0
    ensures n * dt < (n + f) * dt <= (n + 1.0) * dt
  {
    Scaling(n, n + f, dt);
    ScalingUp(n + f, n + 1.0, dt);
  }

  lemma ReachingFraction(part: real, step: real, f: real)
    requires (0.0 < part <= step || 0.0 > part >= step) && f == part / step
    ensures 0.0 < f <= 1.0
  {
    assert f * step == part;
  }

  /** In one step that crosses two levels, the one nearer the start is crossed first. */
  lemma NearerLevelFirst(a: real, b: real, near: real, far: real)
    requires a <= near < far <= b || a >= near > far >= b
    ensures (near - a) / (b - a) < (far - a) / (b - a)
  {
  }

  /**
   The level an edge leaves is always crossed before the one it reaches, so the
   engine's check that the times are in order never rejects, and the edge fits in
   the record.
   */
  lemma EdgeTimesAreInOrder(v: seq<real>, mid: nat, near: real, far: real, rising: bool, dt: real, i: nat, j: nat)
    requires mid < |v| && dt > 0.0 && if rising then near < far else near > far
    requires LastLeft(v, mid, near, rising, i) && FirstReached(v, mid, far, rising, j)
    ensures 0.0 <= CrossingTime(v, i, near, dt) < CrossingTime(v, j, far, dt) <= SampleTime(|v| - 1, dt)
  {
    hide SampleTime, CrossingTime;
    LeavingTime(v, i, near, rising, dt);
    ReachingTime(v, j, far, rising, dt);
    LaterSample(j, |v| - 1, dt);
    LaterSample(0, i - 1, dt);
    FirstSampleTime(dt);
    if i < j {
      LaterSample(i, j - 1, dt);
    } else {
      SameStep(v, i, near, far, rising, dt);
    }
  }

  /** With a sample interval of zero or less that check always rejects. */
  lemma NoTimeAdvances(v: seq<real>, mid: nat, near: real, far: real, rising: bool, dt: real, i: nat, j: nat)
    requires mid < |v| && dt <= 0.0 && if rising then near < far else near > far
    requires LastLeft(v, mid, near, rising, i) && FirstReached(v, mid, far, rising, j)
    ensures CrossingTime(v, j, far, dt) <= CrossingTime(v, i, near, dt)
  {
    hide CrossingTime;
    EdgeTimesAreInOrder(v, mid, near, far, rising, 1.0, i, j);
    InIntervals(v, i, near, dt);
    InIntervals(v, j, far, dt);
    ScalingUp(CrossingTime(v, i, near, 1.0), CrossingTime(v, j, far, 1.0), -dt);
  }

  lemma InIntervals(v: seq<real>, e: nat, level: real, dt: real)
    requires 1 <= e < |v|
    ensures CrossingTime(v, e, level, dt) == CrossingTime(v, e, level, 1.0) * dt
  {
  }

  lemma FirstSampleTime(dt: real)
    ensures SampleTime(0, dt) == 0.0
  {
  }

  lemma SameStep(v: seq<real>, i: nat, near: real, far: real, rising: bool, dt: real)
    requires 1 <= i < |v| && dt > 0.0 && if rising then near < far else near > far
    requires Leaves(v, i, near, rising) && Reaches(v, i, far, rising)
    ensures CrossingTime(v, i, near, dt) < CrossingTime(v, i, far, dt)
  {
    var a, b, n := v[i - 1], v[i], (i - 1) as real;
    NearerLevelFirst(a, b, near, far);
    Scaling(n + (near - a) / (b - a), n + (far - a) / (b - a), dt);
  }

  /**
   What is timed from `mid`: the last departure from the near level at or before it to the
   first arrival at the far level at or after it. A time is reported exactly when there
   are both and time advances, and is then positive and no longer than the record.
   */
  ghost predicate IsEdgeTime(r: Reading, v: seq<real>, mid: nat, near: real, far: real, rising: bool, dt: real)
    requires mid < |v|
  {
    && (r.Valid? <==>
          && dt > 0.0
          && (exists i :: LastLeft(v, mid, near, rising, i))
          && exists j :: FirstReached(v, mid, far, rising, j))
    && (forall i, j :: dt > 0.0 && LastLeft(v, mid, near, rising, i) && FirstReached(v, mid, far, rising, j) ==>
          r == Valid(CrossingTime(v, j, far, dt) - CrossingTime(v, i, near, dt)))
    && (r.Valid? ==> 0.0 < r.value <= SampleTime(|v| - 1, dt))
  }

  method MeasureEdge(v: seq<real>, mid: nat, low: real, high: real, rising: bool, dt: real) returns (r: Reading)
    requires mid < |v| && low < high
    ensures IsEdgeTime(r, v, mid, if rising then low else high, if rising then high else low, rising, dt)
  {
    hide CrossingTime, SampleTime, Leaves, Reaches;
    var near, far := if rising then low else high, if rising then high else low;
    var foundBefore, t1, i := CrossTimeBefore(v, mid, near, rising, dt);
    var foundAfter, t2, j := CrossTimeAfter(v, mid, far, rising, dt);
    if foundBefore && foundAfter {
      if dt > 0.0 {
        EdgeTimesAreInOrder(v, mid, near, far, rising, dt, i, j);
      } else {
        NoTimeAdvances(v, mid, near, far, rising, dt, i, j);
      }
      assert forall i' :: LastLeft(v, mid, near, rising, i') ==> i' == i;
      assert forall j' :: FirstReached(v, mid, far, rising, j') ==> j' == j;
    }
    if !foundBefore || !foundAfter || t2 <= t1 { return Invalid; }
    r := Valid(t2 - t1);
  }

  // ---- whose ends are timed -----------------------------------------------------------

  /** The levels in the order in which an edge of this direction passes them. */
  predicate InOrder(near: real, level: real, far: real, rising: bool) {
    if rising then near < level < far else near > level > far
  }

  /**
   An edge crosses the middle level between samples e-1 and e. What is timed from
   sample e-1 begins before that crossing and ends after it.
   */
  lemma EndsStraddleTheCrossing(v: seq<real>, e: nat, near: real, level: real, far: real, rising: bool, dt: real,
                                i: nat, j: nat)
    requires 1 <= e < |v| && dt > 0.0 && InOrder(near, level, far, rising) && Leaves(v, e, level, rising)
    requires LastLeft(v, e - 1, near, rising, i) && FirstReached(v, e - 1, far, rising, j)
    ensures i < e <= j
    ensures CrossingTime(v, i, near, dt) < CrossingTime(v, e, level, dt) < CrossingTime(v, j, far, dt)
  {
    hide SampleTime, CrossingTime;
    LeavingTime(v, i, near, rising, dt);
    LeavingTime(v, e, level, rising, dt);
    ReachingTime(v, j, far, rising, dt);
    LaterSample(i, e - 1, dt);
    if e < j {
      LaterSample(e, j - 1, dt);
    } else {
      SameStep(v, e, level, far, rising, dt);
    }
  }

  /** The near level is not left between samples `mid` and `e`. */
  ghost predicate NotLeft(v: seq<real>, mid: nat, e: nat, near: real, rising: bool)
    requires e < |v|
  {
    forall j :: mid < j <= e ==> !Leaves(v, j, near, rising)
  }

  /** The far level is not reached from `mid` on, before sample `e`. */
  ghost predicate NotReached(v: seq<real>, mid: nat, e: nat, far: real, rising: bool)
    requires e < |v|
  {
    forall j :: 1 <= j < e && mid <= j ==> !Reaches(v, j, far, rising)
  }

  /**
   The ends of the edge that sample e belongs to, searched from e, are also those found
   from an earlier sample if and only if in between the near level is not left and the
   far level is not reached.
   */
  lemma EndsAreOwnIff(v: seq<real>, mid: nat, e: nat, near: real, far: real, rising: bool, i: nat, j: nat)
    requires mid <= e < |v| && LastLeft(v, e, near, rising, i) && FirstReached(v, e, far, rising, j)
    ensures LastLeft(v, mid, near, rising, i) && FirstReached(v, mid, far, rising, j)
            <==> NotLeft(v, mid, e, near, rising) && NotReached(v, mid, e, far, rising)
  {
  }

  lemma SameEnd(v: seq<real>, mid: nat, e: nat, far: real, rising: bool, j: nat)
    requires mid <= e < |v| && NotReached(v, mid, e, far, rising)
    ensures FirstReached(v, mid, far, rising, j) <==> FirstReached(v, e, far, rising, j)
  {
  }

  /** Searched from later on, an edge begins later or at the same place. */
  lemma LaterStart(v: seq<real>, mid: nat, e: nat, near: real, rising: bool)
    requires mid <= e < |v|
    ensures NotLeft(v, mid, e, near, rising) ==>
      forall i :: LastLeft(v, e, near, rising, i) <==> LastLeft(v, mid, near, rising, i)
    ensures !NotLeft(v, mid, e, near, rising) ==>
      exists i :: LastLeft(v, e, near, rising, i)
    ensures !NotLeft(v, mid, e, near, rising) ==>
      forall i :: LastLeft(v, e, near, rising, i) ==> mid < i
  {
    if !NotLeft(v, mid, e, near, rising) {
      var last := LastOf(v, mid, e, near, rising);
    }
  }

  lemma {:induction false} LastOf(v: seq<real>, mid: nat, e: nat, near: real, rising: bool) returns (i: nat)
    requires mid <= e < |v| && !NotLeft(v, mid, e, near, rising)
    ensures mid < i && LastLeft(v, e, near, rising, i)
    decreases e
  {
    if Leaves(v, e, near, rising) {
      i := e;
    } else {
      i := LastOf(v, mid, e - 1, near, rising);
    }
  }

  /**
   `own` times the edge that sample e belongs to, searched from e; `r` is searched from an
   earlier sample, the far level not being reached in between. It is the edge's own time if
   and only if the near level is not left in between either; otherwise it is
   longer, or there is none.
   */
  lemma EdgeTimeIsOwnIff(v: seq<real>, mid: nat, e: nat, near: real, far: real, rising: bool, dt: real,
                         r: Reading, own: Reading)
    requires mid <= e < |v| && dt > 0.0 && NotReached(v, mid, e, far, rising)
    requires IsEdgeTime(r, v, mid, near, far, rising, dt) && IsEdgeTime(own, v, e, near, far, rising, dt)
    ensures own.Invalid? ==> r.Invalid?
    ensures own.Valid? ==> (r == own <==> NotLeft(v, mid, e, near, rising))
    ensures own.Valid? && r.Valid? && r != own ==> r.value > own.value
  {
    hide SampleTime, CrossingTime, Leaves, Reaches, NotLeft, NotReached;
    LaterStart(v, mid, e, near, rising);
    forall j ensures FirstReached(v, mid, far, rising, j) <==> FirstReached(v, e, far, rising, j) {
      SameEnd(v, mid, e, far, rising, j);
    }
    if r.Valid? && !NotLeft(v, mid, e, near, rising) {
      var i :| LastLeft(v, mid, near, rising, i);
      var first: nat :| LastLeft(v, e, near, rising, first);
      LeavingTime(v, i, near, rising, dt);
      LeavingTime(v, first, near, rising, dt);
      LaterSample(i, first - 1, dt);
      var j :| FirstReached(v, mid, far, rising, j);
    }
  }
}
