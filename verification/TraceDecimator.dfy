/**
 The min/max envelope of a plane of samples. Each pixel column shows the extremes of
 its span, the one nearest to where the last column ended first, so that no sample
 is hidden and a plain edge is drawn without going back on itself.
 */
module TraceDecimator {
  import opened Arithmetic
  import opened EdgeDetector
  import opened LevelFinder

  datatype Viewport = Viewport(
    x: real, y: real, width: real, height: real,
    firstSample: nat, sampleCount: nat,
    voltsPerDiv: real, offsetVolts: real, verticalDivisions: nat, inverted: bool)
  {
    function Span(): real { verticalDivisions as real * voltsPerDiv }
  }

  datatype Point = Point(x: real, y: real)

  datatype Path = Empty | Interpolated | Envelope

  // ---- volts to screen and back --------------------------------------------------------

  function Flipped(inverted: bool, v: real): real { if inverted then -v else v }

  function VoltsToY(volts: real, vp: Viewport): real {
    if vp.Span() <= 0.0 then vp.y + vp.height * 0.5
    else
      var v := Flipped(vp.inverted, volts + vp.offsetVolts);
      var frac := 0.5 - v / vp.Span();
      vp.y + frac * vp.height
  }

  function YToVolts(y: real, vp: Viewport): real {
    if vp.height <= 0.0 then 0.0
    else
      var frac := (y - vp.y) / vp.height;
      Flipped(vp.inverted, (0.5 - frac) * vp.Span()) - vp.offsetVolts
  }

  /** A cursor dragged to where a voltage is drawn reads that voltage back. */
  lemma CursorReadsBack(v: real, vp: Viewport)
    requires vp.Span() > 0.0 && vp.height > 0.0
    ensures YToVolts(VoltsToY(v, vp), vp) == v
  {
  }

  /** And a screen position turned into volts is drawn where it was. */
  lemma PositionReadsBack(y: real, vp: Viewport)
    requires vp.Span() > 0.0 && vp.height > 0.0
    ensures VoltsToY(YToVolts(y, vp), vp) == y
  {
  }

  /** The affine map worked out once per call. */
  datatype YMap = YMap(baseY: real, scale: real, offsetVolts: real, inverted: bool, valid: bool)

  function MakeYMap(vp: Viewport): YMap {
    if vp.Span() <= 0.0 || vp.height <= 0.0 then YMap(0.0, 0.0, 0.0, false, false)
    else YMap(vp.y + 0.5 * vp.height, -vp.height / vp.Span(), vp.offsetVolts, vp.inverted, true)
  }

  function FastY(m: YMap, volts: real): real {
    m.baseY + Flipped(m.inverted, volts + m.offsetVolts) * m.scale
  }

  /** The precomputed map places every voltage where the full conversion does. */
  lemma FastMapRefines(volts: real, vp: Viewport)
    requires MakeYMap(vp).valid
    ensures FastY(MakeYMap(vp), volts) == VoltsToY(volts, vp)
  {
  }

  function YOf(m: YMap, vp: Viewport, c: Count, k: real, zero: real): real {
    if m.valid then FastY(m, Volts(c, k, zero)) else VoltsToY(Volts(c, k, zero), vp)
  }

  /** Slope and offset of the drawing: every count is drawn on one straight line, whatever the viewport. */
  function Slope(vp: Viewport, k: real): real {
    if vp.Span() <= 0.0 then 0.0
    else Flipped(vp.inverted, k) * (-vp.height / vp.Span())
  }

  lemma DrawingIsAffine(vp: Viewport, k: real, zero: real, c: Count, d: Count)
    ensures var m := MakeYMap(vp);
            YOf(m, vp, d, k, zero) - YOf(m, vp, c, k, zero) == (d - c) as real * Slope(vp, k)
  {
  }

  // ---- columns -----------------------------------------------------------------------------

  /** Everything that decides where a count is drawn. */
  datatype Pen = Pen(vp: Viewport, k: real, zero: real) {
    function Y(c: Count): real { YOf(MakeYMap(vp), vp, c, k, zero) }
  }

  function Columns(width: real): (n: nat)
    ensures n >= 1
  {
    if width.Floor < 1 then 1 else width.Floor
  }

  /** Where column c begins in the plane. */
  function ColumnStart(first: nat, count: nat, columns: nat, c: nat): nat
    requires columns > 0
  {
    first + count * c / columns
  }

  /**
   With more samples than columns, the spans are not empty and follow one another
   from the start of the window to its end: neither fix-up of `hi` is ever needed.
   */
  lemma ColumnsPartition(first: nat, count: nat, columns: nat, c: nat)
    requires 0 < columns < count && c < columns
    ensures ColumnStart(first, count, columns, c) < ColumnStart(first, count, columns, c + 1) <= first + count
    ensures ColumnStart(first, count, columns, 0) == first
    ensures ColumnStart(first, count, columns, columns) == first + count
  {
    hide ColumnStart;
    NextColumn(first, count, columns, c);
    LastColumn(first, count, columns, c + 1);
    FirstColumn(first, count, columns);
    EndOfColumns(first, count, columns);
  }

  lemma NextColumn(first: nat, count: nat, columns: nat, c: nat)
    requires 0 < columns <= count
    ensures ColumnStart(first, count, columns, c) < ColumnStart(first, count, columns, c + 1)
  {
  }

  lemma LastColumn(first: nat, count: nat, columns: nat, c: nat)
    requires 0 < columns && 0 < count && c <= columns
    ensures ColumnStart(first, count, columns, c) <= ColumnStart(first, count, columns, columns)
  {
    Scale(count, c, columns);
    QuotientMonotone(count * c, count * columns, columns);
  }

  lemma FirstColumn(first: nat, count: nat, columns: nat)
    requires columns > 0
    ensures ColumnStart(first, count, columns, 0) == first
  {
  }

  lemma EndOfColumns(first: nat, count: nat, columns: nat)
    requires columns > 0
    ensures ColumnStart(first, count, columns, columns) == first + count
  {
    QuotientOfMultiple(count, columns);
  }

  /** The samples of one column. */
  function Slice(samples: seq<Count>, first: nat, count: nat, columns: nat, c: nat): (s: seq<Count>)
    requires 0 < columns < count && c < columns && first + count <= |samples|
    ensures s != []
  {
    ColumnsPartition(first, count, columns, c);
    samples[ColumnStart(first, count, columns, c)..ColumnStart(first, count, columns, c + 1)]
  }

  function Abs(x: real): real { if x < 0.0 then -x else x }

  /** The counts drawn for the first n columns, two for each, nearest to the last one first. */
  function VertexCounts(samples: seq<Count>, pen: Pen, first: nat, count: nat, columns: nat, n: nat): (v: seq<Count>)
    requires 0 < columns < count && n <= columns && first + count <= |samples|
    ensures |v| == 2 * n
  {
    if n == 0 then []
    else
      var before := VertexCounts(samples, pen, first, count, columns, n - 1);
      var s := Slice(samples, first, count, columns, n - 1);
      before + ColumnVertices(pen, before, MinOf(s), MaxOf(s))
  }

  function ColumnVertices(pen: Pen, before: seq<Count>, mn: Count, mx: Count): (v: seq<Count>)
    ensures |v| == 2
  {
    if before == [] || Nearer(pen, mx, mn, before[|before| - 1]) then [mx, mn] else [mn, mx]
  }

  /** a is drawn no farther from `from` than b is. */
  predicate Nearer(pen: Pen, a: Count, b: Count, from: Count) {
    Abs(pen.Y(a) - pen.Y(from)) <= Abs(pen.Y(b) - pen.Y(from))
  }

  function EnvelopePoints(pen: Pen, counts: seq<Count>): (p: seq<Point>)
    ensures |p| == |counts|
  {
    seq(|counts|, i requires 0 <= i < |counts| => Point(pen.vp.x + (i / 2) as real, pen.Y(counts[i])))
  }

  function InterpolatedPoints(samples: seq<Count>, pen: Pen, first: nat, count: nat): (p: seq<Point>)
    requires first + count <= |samples|
    ensures |p| == count
  {
    var dx := if count > 1 then pen.vp.width / (count - 1) as real else 0.0;
    seq(count, i requires 0 <= i < count => Point(pen.vp.x + i as real * dx, pen.Y(samples[first + i])))
  }

  /** The part of the plane that is on screen. */
  function Shown(vp: Viewport, total: nat): (r: (nat, nat))
    ensures r.0 + r.1 <= total
  {
    var first := if vp.firstSample < total then vp.firstSample else total;
    var rest := total - first;
    (first, if vp.sampleCount < rest then vp.sampleCount else rest)
  }

  /** The whole drawing: which path is taken, and its vertices. */
  function TraceOf(samples: seq<Count>, k: real, zero: real, vp: Viewport): (Path, seq<Point>) {
    var (first, count) := Shown(vp, |samples|);
    var pen, columns := Pen(vp, k, zero), Columns(vp.width);
    if vp.width <= 0.0 || count == 0 then (Empty, [])
    else if count <= columns then (Interpolated, InterpolatedPoints(samples, pen, first, count))
    else (Envelope, EnvelopePoints(pen, VertexCounts(samples, pen, first, count, columns, columns)))
  }

  method Decimate(samples: seq<Count>, k: real, zero: real, vp: Viewport) returns (path: Path, out: seq<Point>)
    ensures (path, out) == TraceOf(samples, k, zero, vp)
    ensures |out| <= Reserved(vp.width)
  {
    hide YOf, VertexCounts, EnvelopePoints, InterpolatedPoints;
    var (first, count) := Shown(vp, |samples|);
    if vp.width <= 0.0 || count == 0 { return Empty, []; }
    var columns := Columns(vp.width);
    RoomIsEnough(vp.width, count);
    if count <= columns {
      out := DrawSamples(samples, Pen(vp, k, zero), first, count);
      return Interpolated, out;
    }
    out := DrawEnvelope(samples, Pen(vp, k, zero), first, count, columns);
    path := Envelope;
  }

  method DrawSamples(samples: seq<Count>, pen: Pen, first: nat, count: nat) returns (out: seq<Point>)
    requires first + count <= |samples|
    ensures out == InterpolatedPoints(samples, pen, first, count)
  {
    out := [];
    var dx := if count > 1 then pen.vp.width / (count - 1) as real else 0.0;
    for i := 0 to count
      invariant out == InterpolatedPoints(samples, pen, first, count)[..i]
    {
      out := out + [Point(pen.vp.x + i as real * dx, pen.Y(samples[first + i]))];
    }
  }

  method DrawEnvelope(samples: seq<Count>, pen: Pen, first: nat, count: nat, columns: nat) returns (out: seq<Point>)
    requires 0 < columns < count && first + count <= |samples|
    ensures out == EnvelopePoints(pen, VertexCounts(samples, pen, first, count, columns, columns))
  {
    hide MinOf, MaxOf, YOf, ColumnStart, EnvelopePoints, VertexCounts, Abs;
    out := [];
    var havePrev, prevY := false, 0.0;
    ghost var drawn: seq<Count> := [];
    NothingDrawn(samples, pen, first, count, columns);
    for c := 0 to columns
      invariant drawn == VertexCounts(samples, pen, first, count, columns, c)
      invariant out == EnvelopePoints(pen, drawn)
      invariant havePrev == (drawn != []) && (havePrev ==> prevY == pen.Y(drawn[|drawn| - 1]))
    {
      ColumnsPartition(first, count, columns, c);
      OneMoreColumn(samples, pen, first, count, columns, c);
      var lo := ColumnStart(first, count, columns, c);
      var hi := ColumnStart(first, count, columns, c + 1);
      if hi <= lo { hi := lo + 1; }
      if hi > first + count { hi := first + count; }
      var mn, mx := Extremes(samples[lo..hi]);
      var px, yTop, yBot := pen.vp.x + c as real, pen.Y(mx), pen.Y(mn);
      var topFirst := !havePrev || Abs(yTop - prevY) <= Abs(yBot - prevY);
      ghost var two := ColumnVertices(pen, drawn, mn, mx);
      if topFirst {
        out := out + [Point(px, yTop), Point(px, yBot)];
        prevY := yBot;
      } else {
        out := out + [Point(px, yBot), Point(px, yTop)];
        prevY := yTop;
      }
      PointsGrow(pen, drawn, two, c);
      drawn := drawn + two;
      havePrev := true;
    }
  }

  lemma NothingDrawn(samples: seq<Count>, pen: Pen, first: nat, count: nat, columns: nat)
    requires 0 < columns < count && first + count <= |samples|
    ensures VertexCounts(samples, pen, first, count, columns, 0) == [] && EnvelopePoints(pen, []) == []
  {
  }

  lemma OneMoreColumn(samples: seq<Count>, pen: Pen, first: nat, count: nat, columns: nat, c: nat)
    requires 0 < columns < count && c < columns && first + count <= |samples|
    ensures var before := VertexCounts(samples, pen, first, count, columns, c);
            var s := Slice(samples, first, count, columns, c);
            VertexCounts(samples, pen, first, count, columns, c + 1)
            == before + ColumnVertices(pen, before, MinOf(s), MaxOf(s))
  {
  }

  lemma PointsGrow(pen: Pen, counts: seq<Count>, two: seq<Count>, c: nat)
    requires |counts| == 2 * c && |two| == 2
    ensures EnvelopePoints(pen, counts + two)
         == EnvelopePoints(pen, counts)
            + [Point(pen.vp.x + c as real, pen.Y(two[0])), Point(pen.vp.x + c as real, pen.Y(two[1]))]
  {
  }

  // ---- nothing is hidden and nothing is invented ---------------------------------------------

  predicate Between(a: real, x: real, b: real) { a <= x <= b || b <= x <= a }

  lemma {:induction false} ColumnsAreKept(samples: seq<Count>, pen: Pen, first: nat, count: nat, columns: nat,
                                          n: nat, c: nat)
    requires 0 < columns < count && c < n <= columns && first + count <= |samples|
    ensures var v, s := VertexCounts(samples, pen, first, count, columns, n), Slice(samples, first, count, columns, c);
            {v[2 * c], v[2 * c + 1]} == {MinOf(s), MaxOf(s)}
  {
    hide MinOf, MaxOf, Nearer, Slice;
    OneMoreColumn(samples, pen, first, count, columns, n - 1);
    if c < n - 1 {
      ColumnsAreKept(samples, pen, first, count, columns, n - 1, c);
    }
  }

  /** Counts in between are drawn in between, whichever way up the trace is. */
  lemma DrawnBetween(pen: Pen, a: Count, c: Count, b: Count)
    requires a <= c <= b
    ensures Between(pen.Y(a), pen.Y(c), pen.Y(b))
  {
    hide YOf, Slope;
    DrawingIsAffine(pen.vp, pen.k, pen.zero, a, c);
    DrawingIsAffine(pen.vp, pen.k, pen.zero, c, b);
    SameSign((c - a) as real, (b - c) as real, Slope(pen.vp, pen.k));
  }

  lemma SameSign(x: real, y: real, m: real)
    requires x >= 0.0 && y >= 0.0
    ensures (x * m >= 0.0 && y * m >= 0.0) || (x * m <= 0.0 && y * m <= 0.0)
  {
    if m >= 0.0 {
      ScalingUp(0.0, x, m);
      ScalingUp(0.0, y, m);
    } else {
      ScalingUp(0.0, x, -m);
      ScalingUp(0.0, y, -m);
    }
  }

  /** The column that shows a sample. */
  ghost predicate InColumn(first: nat, count: nat, columns: nat, c: nat, i: nat)
    requires columns > 0
  {
    c < columns && ColumnStart(first, count, columns, c) <= i < ColumnStart(first, count, columns, c + 1)
  }

  lemma {:induction false} SomeColumnShows(first: nat, count: nat, columns: nat, i: nat, n: nat) returns (c: nat)
    requires 0 < columns < count && n <= columns && first <= i < ColumnStart(first, count, columns, n)
    ensures InColumn(first, count, columns, c, i)
  {
    hide ColumnStart;
    FirstColumn(first, count, columns);
    if i >= ColumnStart(first, count, columns, n - 1) {
      c := n - 1;
    } else {
      c := SomeColumnShows(first, count, columns, i, n - 1);
    }
  }

  /**
   No glitch is hidden: in an envelope every sample of the window is drawn between the
   two vertices of its column, and both of those are samples of that column.
   */
  lemma NoSampleIsHidden(samples: seq<Count>, pen: Pen, first: nat, count: nat, columns: nat, i: nat)
    returns (c: nat, p: nat, q: nat)
    requires 0 < columns < count && first + count <= |samples| && first <= i < first + count
    ensures InColumn(first, count, columns, c, i)
    ensures InColumn(first, count, columns, c, p) && InColumn(first, count, columns, c, q)
    ensures p < |samples| && q < |samples|
    ensures var out := EnvelopePoints(pen, VertexCounts(samples, pen, first, count, columns, columns));
            && out[2 * c].y == pen.Y(samples[p]) && out[2 * c + 1].y == pen.Y(samples[q])
            && Between(out[2 * c].y, pen.Y(samples[i]), out[2 * c + 1].y)
  {
    hide YOf, MinOf, MaxOf, ColumnStart, Between, VertexCounts;
    EndOfColumns(first, count, columns);
    c := SomeColumnShows(first, count, columns, i, columns);
    ColumnsPartition(first, count, columns, c);
    StartsNotBefore(first, count, columns, c);
    var lo := ColumnStart(first, count, columns, c);
    var s := Slice(samples, first, count, columns, c);
    var v := VertexCounts(samples, pen, first, count, columns, columns);
    ColumnsAreKept(samples, pen, first, count, columns, columns, c);
    assert s[i - lo] == samples[i];
    ExtremesOf(s, samples[i]);
    assert v[2 * c] in s && v[2 * c + 1] in s;
    var p' :| 0 <= p' < |s| && s[p'] == v[2 * c];
    var q' :| 0 <= q' < |s| && s[q'] == v[2 * c + 1];
    p, q := lo + p', lo + q';
    if v[2 * c] <= v[2 * c + 1] {
      DrawnBetween(pen, v[2 * c], samples[i], v[2 * c + 1]);
    } else {
      DrawnBetween(pen, v[2 * c + 1], samples[i], v[2 * c]);
      Swap(pen.Y(v[2 * c + 1]), pen.Y(samples[i]), pen.Y(v[2 * c]));
    }
  }

  lemma ExtremesOf(s: seq<Count>, c: Count)
    requires c in s
    ensures MinOf(s) <= c <= MaxOf(s) && MinOf(s) in s && MaxOf(s) in s
  {
  }

  lemma Swap(a: real, x: real, b: real)
    ensures Between(a, x, b) <==> Between(b, x, a)
  {
  }

  lemma StartsNotBefore(first: nat, count: nat, columns: nat, c: nat)
    requires columns > 0
    ensures first <= ColumnStart(first, count, columns, c)
  {
  }

  function Ceiling(x: real): int { -(-x).Floor }

  /** What reserve() makes room for at a pixel width. */
  function Reserved(width: real): int {
    (if Ceiling(width) < 1 then 1 else Ceiling(width)) * 2 + 2
  }

  lemma RoomIsEnough(width: real, count: nat)
    ensures Reserved(width) >= 0
    ensures count <= Columns(width) ==> count <= Reserved(width)
    ensures 2 * Columns(width) <= Reserved(width)
  {
  }

  lemma VertexIsASample(samples: seq<Count>, pen: Pen, first: nat, count: nat, columns: nat, j: nat)
    requires 0 < columns < count && first + count <= |samples| && j < 2 * columns
    ensures VertexCounts(samples, pen, first, count, columns, columns)[j] in samples[first..first + count]
  {
    hide YOf, MinOf, MaxOf, ColumnStart, VertexCounts;
    var c := j / 2;
    var window := samples[first..first + count];
    var s := Slice(samples, first, count, columns, c);
    var v := VertexCounts(samples, pen, first, count, columns, columns);
    ColumnsAreKept(samples, pen, first, count, columns, columns, c);
    ExtremesOf(s, s[0]);
    assert j == 2 * c || j == 2 * c + 1;
    assert v[j] in s;
    SliceIs(samples, first, count, columns, c);
    StartsNotBefore(first, count, columns, c);
    ColumnsPartition(first, count, columns, c);
    var i :| 0 <= i < |s| && s[i] == v[j];
    assert v[j] == window[ColumnStart(first, count, columns, c) + i - first];
  }

  lemma SomeVertexIsAsFarOut(samples: seq<Count>, pen: Pen, first: nat, count: nat, columns: nat, i: nat)
    requires 0 < columns < count && first + count <= |samples| && first <= i < first + count
    ensures var v := VertexCounts(samples, pen, first, count, columns, columns);
            MinOf(v) <= samples[i] <= MaxOf(v)
  {
    hide YOf, MinOf, MaxOf, ColumnStart, VertexCounts;
    EndOfColumns(first, count, columns);
    var c := SomeColumnShows(first, count, columns, i, columns);
    ColumnsPartition(first, count, columns, c);
    StartsNotBefore(first, count, columns, c);
    var s := Slice(samples, first, count, columns, c);
    var v := VertexCounts(samples, pen, first, count, columns, columns);
    ColumnsAreKept(samples, pen, first, count, columns, columns, c);
    assert s[i - ColumnStart(first, count, columns, c)] == samples[i];
    ExtremesOf(s, samples[i]);
    assert MinOf(s) in {v[2 * c], v[2 * c + 1]} && MaxOf(s) in {v[2 * c], v[2 * c + 1]};
    assert MinOf(s) in v && MaxOf(s) in v;
    ExtremesOf(v, MinOf(s));
    ExtremesOf(v, MaxOf(s));
  }

  /**
   The envelope is exactly as tall as the window: its lowest and highest vertices are
   the lowest and highest counts shown, and every sample is drawn between these two.
   */
  lemma ExtremesAreDrawn(samples: seq<Count>, pen: Pen, first: nat, count: nat, columns: nat)
    requires 0 < columns < count && first + count <= |samples|
    ensures var v, window := VertexCounts(samples, pen, first, count, columns, columns), samples[first..first + count];
            && MinOf(v) == MinOf(window) && MaxOf(v) == MaxOf(window)
            && forall i :: 0 <= i < |window| ==> Between(pen.Y(MinOf(v)), pen.Y(window[i]), pen.Y(MaxOf(v)))
  {
    hide YOf, MinOf, MaxOf, ColumnStart, VertexCounts, Between;
    var v, window := VertexCounts(samples, pen, first, count, columns, columns), samples[first..first + count];
    ExtremesOf(v, v[0]);
    ExtremesOf(window, window[0]);
    forall c | c in v ensures MinOf(window) <= c <= MaxOf(window) {
      var j :| 0 <= j < |v| && v[j] == c;
      VertexIsASample(samples, pen, first, count, columns, j);
      ExtremesOf(window, c);
    }
    forall i | 0 <= i < |window|
      ensures MinOf(v) <= window[i] <= MaxOf(v)
      ensures Between(pen.Y(MinOf(v)), pen.Y(window[i]), pen.Y(MaxOf(v)))
    {
      SomeVertexIsAsFarOut(samples, pen, first, count, columns, first + i);
      DrawnBetween(pen, MinOf(v), window[i], MaxOf(v));
    }
  }

  // ---- a plain edge is drawn without going back ----------------------------------------------

  ghost predicate NonIncreasing(samples: seq<Count>, lo: nat, hi: nat)
    requires lo <= hi <= |samples|
  {
    forall i, j :: lo <= i <= j < hi ==> samples[i] >= samples[j]
  }

  ghost predicate NonDecreasing(samples: seq<Count>, lo: nat, hi: nat)
    requires lo <= hi <= |samples|
  {
    forall i, j :: lo <= i <= j < hi ==> samples[i] <= samples[j]
  }

  ghost predicate Descends(v: seq<Count>) { forall i, j :: 0 <= i <= j < |v| ==> v[i] >= v[j] }

  ghost predicate Ascends(v: seq<Count>) { forall i, j :: 0 <= i <= j < |v| ==> v[i] <= v[j] }

  /** Vertices from the m-th on only ever move one way. */
  ghost predicate MonotoneFrom(out: seq<Point>, m: nat) {
    || (forall i, j :: m <= i <= j < |out| ==> out[i].y <= out[j].y)
    || (forall i, j :: m <= i <= j < |out| ==> out[i].y >= out[j].y)
  }

  lemma NearerByCount(pen: Pen, a: Count, b: Count, from: Count)
    requires from <= a <= b || from >= a >= b
    ensures Nearer(pen, a, b, from)
  {
    hide YOf;
    var m := Slope(pen.vp, pen.k);
    DrawingIsAffine(pen.vp, pen.k, pen.zero, from, a);
    DrawingIsAffine(pen.vp, pen.k, pen.zero, from, b);
    FartherAlong((a - from) as real, (b - from) as real, m);
  }

  lemma FartherAlong(x: real, y: real, m: real)
    requires 0.0 <= x <= y || 0.0 >= x >= y
    ensures Abs(x * m) <= Abs(y * m)
  {
  }

  lemma LastStays(s: seq<Count>)
    requires s != []
    ensures Descends(s) ==> MaxOf(s) == s[0] && MinOf(s) == s[|s| - 1]
    ensures Ascends(s) ==> MinOf(s) == s[0] && MaxOf(s) == s[|s| - 1]
  {
  }

  lemma FallingStep(pen: Pen, before: seq<Count>, s: seq<Count>)
    requires s != [] && Descends(s) && Descends(before)
    requires before != [] ==> before[|before| - 1] >= s[0]
    ensures ColumnVertices(pen, before, MinOf(s), MaxOf(s)) == [s[0], s[|s| - 1]]
    ensures Descends(before + [s[0], s[|s| - 1]])
  {
    hide MinOf, MaxOf, Nearer, Descends;
    LastStays(s);
    DescendsFurther(before, s[0], s[|s| - 1]);
    FirstToLast(s);
    if before != [] {
      NearerByCount(pen, s[0], s[|s| - 1], before[|before| - 1]);
    }
  }

  lemma FirstToLast(s: seq<Count>)
    requires s != []
    ensures Descends(s) ==> s[0] >= s[|s| - 1]
    ensures Ascends(s) ==> s[0] <= s[|s| - 1]
  {
  }

  lemma DescendsFurther(v: seq<Count>, x: Count, y: Count)
    requires Descends(v) && (v != [] ==> v[|v| - 1] >= x)
    ensures x >= y ==> Descends(v + [x, y])
  {
  }

  lemma AscendsFurther(v: seq<Count>, x: Count, y: Count)
    requires Ascends(v) && (v != [] ==> v[|v| - 1] <= x)
    ensures x <= y ==> Ascends(v + [x, y])
  {
  }

  /** The samples from position i to the end of the window are not above c (or not below it). */
  ghost predicate Bounds(samples: seq<Count>, i: nat, to: nat, c: Count, above: bool)
    requires to <= |samples|
  {
    forall j :: i <= j < to ==> if above then c >= samples[j] else c <= samples[j]
  }

  /** What the columns of a falling record show: its first and last samples, in that order. */
  lemma {:induction false} FallingVertices(samples: seq<Count>, pen: Pen, first: nat, count: nat, columns: nat, n: nat)
    requires 0 < columns < count && n <= columns && first + count <= |samples|
    requires NonIncreasing(samples, first, first + count)
    ensures var v := VertexCounts(samples, pen, first, count, columns, n);
            && Descends(v)
            && (n > 0 ==> Bounds(samples, ColumnStart(first, count, columns, n), first + count, v[|v| - 1], true))
  {
    if n > 0 {
      hide YOf, MinOf, MaxOf, ColumnStart, ColumnVertices;
      FallingVertices(samples, pen, first, count, columns, n - 1);
      ColumnsPartition(first, count, columns, n - 1);
      StartsNotBefore(first, count, columns, n - 1);
      var s := Slice(samples, first, count, columns, n - 1);
      var before := VertexCounts(samples, pen, first, count, columns, n - 1);
      SliceOfEdge(samples, first, first + count, ColumnStart(first, count, columns, n - 1),
                  ColumnStart(first, count, columns, n));
      FallingStep(pen, before, s);
    }
  }

  lemma RisingStep(pen: Pen, before: seq<Count>, s: seq<Count>)
    requires s != [] && before != [] && Ascends(s) && Ascends(before[1..])
    requires before[|before| - 1] <= s[0] && Slope(pen.vp, pen.k) != 0.0 && |before| > 1
    ensures ColumnVertices(pen, before, MinOf(s), MaxOf(s)) == [s[0], s[|s| - 1]]
    ensures Ascends((before + [s[0], s[|s| - 1]])[1..])
  {
    hide MinOf, MaxOf, Nearer, Slope, Ascends;
    LastStays(s);
    FirstToLast(s);
    NotNearerByCount(pen, s[|s| - 1], s[0], before[|before| - 1]);
    AscendsFurther(before[1..], s[0], s[|s| - 1]);
    assert (before + [s[0], s[|s| - 1]])[1..] == before[1..] + [s[0], s[|s| - 1]];
  }

  lemma NotNearerByCount(pen: Pen, a: Count, b: Count, from: Count)
    requires from <= b <= a && Slope(pen.vp, pen.k) != 0.0
    ensures Nearer(pen, a, b, from) ==> a == b
  {
    hide YOf, Slope;
    var m := Slope(pen.vp, pen.k);
    DrawingIsAffine(pen.vp, pen.k, pen.zero, from, a);
    DrawingIsAffine(pen.vp, pen.k, pen.zero, from, b);
    if a != b {
      StrictlyFarther((b - from) as real, (a - from) as real, m);
    }
  }

  lemma StrictlyFarther(x: real, y: real, m: real)
    requires 0.0 <= x < y && m != 0.0
    ensures Abs(x * m) < Abs(y * m)
  {
  }

  /** The columns of a rising record, after the very first vertex: first and last samples again. */
  lemma {:induction false} RisingVertices(samples: seq<Count>, pen: Pen, first: nat, count: nat, columns: nat, n: nat)
    requires 0 < n <= columns < count && first + count <= |samples|
    requires NonDecreasing(samples, first, first + count) && Slope(pen.vp, pen.k) != 0.0
    ensures var v := VertexCounts(samples, pen, first, count, columns, n);
            && Ascends(v[1..])
            && Bounds(samples, ColumnStart(first, count, columns, n), first + count, v[|v| - 1], false)
  {
    hide YOf, MinOf, MaxOf, ColumnStart, Slope, VertexCounts, ColumnVertices, Slice;
    ColumnsPartition(first, count, columns, n - 1);
    StartsNotBefore(first, count, columns, n - 1);
    var lo, hi := ColumnStart(first, count, columns, n - 1), ColumnStart(first, count, columns, n);
    var s, before := samples[lo..hi], VertexCounts(samples, pen, first, count, columns, n - 1);
    SliceIs(samples, first, count, columns, n - 1);
    SliceOfEdge(samples, first, first + count, lo, hi);
    if n > 1 {
      VertexLength(samples, pen, first, count, columns, n - 1);
      RisingVertices(samples, pen, first, count, columns, n - 1);
      RisingStep(pen, before, s);
      OneMoreColumn(samples, pen, first, count, columns, n - 1);
    } else {
      FirstVertices(samples, pen, first, count, columns);
      LastStays(s);
    }
  }

  lemma SliceIs(samples: seq<Count>, first: nat, count: nat, columns: nat, c: nat)
    requires 0 < columns < count && c < columns && first + count <= |samples|
    ensures ColumnStart(first, count, columns, c) < ColumnStart(first, count, columns, c + 1) <= |samples|
    ensures Slice(samples, first, count, columns, c)
         == samples[ColumnStart(first, count, columns, c)..ColumnStart(first, count, columns, c + 1)]
  {
    ColumnsPartition(first, count, columns, c);
  }

  lemma VertexLength(samples: seq<Count>, pen: Pen, first: nat, count: nat, columns: nat, n: nat)
    requires 0 < columns < count && n <= columns && first + count <= |samples|
    ensures |VertexCounts(samples, pen, first, count, columns, n)| == 2 * n
  {
  }

  lemma FirstVertices(samples: seq<Count>, pen: Pen, first: nat, count: nat, columns: nat)
    requires 0 < columns < count && first + count <= |samples|
    ensures var s := Slice(samples, first, count, columns, 0);
            VertexCounts(samples, pen, first, count, columns, 1) == [MaxOf(s), MinOf(s)]
  {
  }

  lemma SliceOfEdge(samples: seq<Count>, from: nat, to: nat, lo: nat, hi: nat)
    requires from <= lo < hi <= to <= |samples|
    ensures NonIncreasing(samples, from, to) ==>
      Descends(samples[lo..hi]) && Bounds(samples, hi, to, samples[hi - 1], true)
    ensures NonDecreasing(samples, from, to) ==>
      && Ascends(samples[lo..hi])
      && Bounds(samples, hi, to, samples[lo], false) && Bounds(samples, hi, to, samples[hi - 1], false)
  {
  }

  lemma DrawnMonotone(pen: Pen, counts: seq<Count>, m: nat)
    requires m <= |counts| && (Descends(counts[m..]) || Ascends(counts[m..]) || Slope(pen.vp, pen.k) == 0.0)
    ensures MonotoneFrom(EnvelopePoints(pen, counts), m)
  {
    hide YOf, Slope;
    var out, slope, tail := EnvelopePoints(pen, counts), Slope(pen.vp, pen.k), counts[m..];
    forall i, j | m <= i <= j < |out|
      ensures out[j].y - out[i].y == (tail[j - m] - tail[i - m]) as real * slope
    {
      DrawingIsAffine(pen.vp, pen.k, pen.zero, counts[i], counts[j]);
    }
    if slope == 0.0 {
    } else if (Descends(tail) && slope > 0.0) || (!Descends(tail) && slope < 0.0) {
      forall i, j | m <= i <= j < |out| ensures out[i].y >= out[j].y {
        SignOfProduct((tail[j - m] - tail[i - m]) as real, slope);
      }
    } else {
      forall i, j | m <= i <= j < |out| ensures out[i].y <= out[j].y {
        SignOfProduct((tail[j - m] - tail[i - m]) as real, slope);
      }
    }
  }

  lemma SignOfProduct(x: real, m: real)
    ensures (x >= 0.0 && m >= 0.0) || (x <= 0.0 && m <= 0.0) ==> x * m >= 0.0
    ensures (x >= 0.0 && m <= 0.0) || (x <= 0.0 && m >= 0.0) ==> x * m <= 0.0
  {
  }

  /** A falling record is drawn as one monotone line, for any offset, inversion or scale sign. */
  lemma FallingTraceDoesNotBacktrack(samples: seq<Count>, pen: Pen, first: nat, count: nat, columns: nat)
    requires 0 < columns < count && first + count <= |samples|
    requires NonIncreasing(samples, first, first + count)
    ensures MonotoneFrom(EnvelopePoints(pen, VertexCounts(samples, pen, first, count, columns, columns)), 0)
  {
    hide YOf, Slope, VertexCounts, MonotoneFrom, EnvelopePoints;
    var v := VertexCounts(samples, pen, first, count, columns, columns);
    FallingVertices(samples, pen, first, count, columns, columns);
    assert v[0..] == v;
    DrawnMonotone(pen, v, 0);
  }

  /** A rising record is drawn as one monotone line from its second vertex on. */
  lemma RisingTraceDoesNotBacktrack(samples: seq<Count>, pen: Pen, first: nat, count: nat, columns: nat)
    requires 0 < columns < count && first + count <= |samples|
    requires NonDecreasing(samples, first, first + count)
    ensures MonotoneFrom(EnvelopePoints(pen, VertexCounts(samples, pen, first, count, columns, columns)), 1)
  {
    hide YOf, Slope, MonotoneFrom, EnvelopePoints;
    var v := VertexCounts(samples, pen, first, count, columns, columns);
    if Slope(pen.vp, pen.k) != 0.0 {
      RisingVertices(samples, pen, first, count, columns, columns);
    }
    DrawnMonotone(pen, v, 1);
  }

  lemma {:induction false} EarlierVerticesStay(samples: seq<Count>, pen: Pen, first: nat, count: nat, columns: nat,
                                               m: nat, n: nat)
    requires 0 < columns < count && m <= n <= columns && first + count <= |samples|
    ensures VertexCounts(samples, pen, first, count, columns, m)
         <= VertexCounts(samples, pen, first, count, columns, n)
  {
    hide MinOf, MaxOf, Slice, ColumnVertices, VertexCounts, ColumnStart;
    if m < n {
      EarlierVerticesStay(samples, pen, first, count, columns, m, n - 1);
      OneMoreColumn(samples, pen, first, count, columns, n - 1);
      var before := VertexCounts(samples, pen, first, count, columns, n - 1);
      var s := Slice(samples, first, count, columns, n - 1);
      PrefixGrows(VertexCounts(samples, pen, first, count, columns, m), before,
                  ColumnVertices(pen, before, MinOf(s), MaxOf(s)));
    }
  }

  lemma PrefixGrows<T>(a: seq<T>, b: seq<T>, c: seq<T>)
    requires a <= b
    ensures a <= b + c
  {
  }

  /** The first three vertices of a rising trace: the top of the first column, its bottom, and something above both. */
  lemma RisingStart(samples: seq<Count>, pen: Pen, first: nat, count: nat, columns: nat)
    requires 1 < columns < count && first + count <= |samples|
    requires NonDecreasing(samples, first, first + count)
    ensures first < ColumnStart(first, count, columns, 1) <= |samples|
    ensures var v := VertexCounts(samples, pen, first, count, columns, columns);
            && |v| == 2 * columns
            && v[0] == samples[ColumnStart(first, count, columns, 1) - 1] && v[1] == samples[first]
            && v[1] <= v[0] <= v[2]
  {
    hide YOf, MinOf, MaxOf, ColumnStart, VertexCounts, ColumnVertices, Slice, Nearer;
    var v := VertexCounts(samples, pen, first, count, columns, columns);
    var one, two := ColumnStart(first, count, columns, 1), ColumnStart(first, count, columns, 2);
    FirstColumn(first, count, columns);
    ColumnsPartition(first, count, columns, 0);
    ColumnsPartition(first, count, columns, 1);
    SliceIs(samples, first, count, columns, 0);
    SliceIs(samples, first, count, columns, 1);
    FirstVertices(samples, pen, first, count, columns);
    EarlierVerticesStay(samples, pen, first, count, columns, 1, columns);
    VertexLength(samples, pen, first, count, columns, columns);
    SliceOfEdge(samples, first, first + count, first, one);
    LastStays(samples[first..one]);
    ColumnsAreKept(samples, pen, first, count, columns, columns, 1);
    var s := samples[one..two];
    ExtremesOf(s, s[0]);
    assert v[2] in {MinOf(s), MaxOf(s)} && v[2] in s;
  }

  /**
   Whether a rising record is drawn monotonically from its very first vertex: only
   when there is one column, the trace is flat, or the first column holds one level.
   */
  lemma RisingTraceMonotoneIff(samples: seq<Count>, pen: Pen, first: nat, count: nat, columns: nat)
    requires 1 < columns < count && first + count <= |samples|
    requires NonDecreasing(samples, first, first + count)
    ensures first < ColumnStart(first, count, columns, 1) <= |samples|
    ensures MonotoneFrom(EnvelopePoints(pen, VertexCounts(samples, pen, first, count, columns, columns)), 0)
            <==> Slope(pen.vp, pen.k) == 0.0
                 || samples[first] == samples[ColumnStart(first, count, columns, 1) - 1]
  {
    hide YOf, Slope, VertexCounts, ColumnStart;
    var v, m := VertexCounts(samples, pen, first, count, columns, columns), Slope(pen.vp, pen.k);
    RisingStart(samples, pen, first, count, columns);
    if m == 0.0 {
      DrawnMonotone(pen, v, 0);
    } else if v[0] == v[1] {
      RisingVertices(samples, pen, first, count, columns, columns);
      WithEqualStart(v);
      DrawnMonotone(pen, v, 0);
    } else {
      var out := EnvelopePoints(pen, v);
      DownThenUp(samples, pen, first, count, columns, v, m, out);
    }
  }

  lemma WithEqualStart(v: seq<Count>)
    requires |v| >= 2 && v[0] == v[1] && Ascends(v[1..])
    ensures Ascends(v[0..])
  {
  }

  lemma DownThenUp(samples: seq<Count>, pen: Pen, first: nat, count: nat, columns: nat,
                   v: seq<Count>, m: real, out: seq<Point>)
    requires 1 < columns < count && first + count <= |samples| && NonDecreasing(samples, first, first + count)
    requires v == VertexCounts(samples, pen, first, count, columns, columns) && out == EnvelopePoints(pen, v)
    requires m == Slope(pen.vp, pen.k) && m != 0.0 && |v| == 2 * columns && v[0] != v[1] && v[0] <= v[2]
    ensures !MonotoneFrom(out, 0)
  {
    hide YOf, Slope, VertexCounts, ColumnStart;
    RisingStart(samples, pen, first, count, columns);
    DrawingIsAffine(pen.vp, pen.k, pen.zero, v[1], v[0]);
    DrawingIsAffine(pen.vp, pen.k, pen.zero, v[1], v[2]);
    StrictSign((v[0] - v[1]) as real, m);
    StrictSign((v[2] - v[1]) as real, m);
    var a, b, c := out[0].y, out[1].y, out[2].y;
    assert (a > b && c > b) || (a < b && c < b);
  }

  lemma StrictSign(x: real, m: real)
    requires x > 0.0
    ensures m > 0.0 ==> x * m > 0.0
    ensures m < 0.0 ==> x * m < 0.0
  {
  }

  /** A ramp of four samples in two columns is drawn up, back down and up again. */
  lemma RisingRampStepsBack()
    ensures var pen := Pen(Viewport(0.0, 0.0, 2.0, 8.0, 0, 4, 1.0, 0.0, 8, false), 1.0, 0.0);
            !MonotoneFrom(EnvelopePoints(pen, VertexCounts([0, 1, 2, 3], pen, 0, 4, 2, 2)), 0)
  {
    hide MonotoneFrom, EnvelopePoints, VertexCounts;
    var pen := Pen(Viewport(0.0, 0.0, 2.0, 8.0, 0, 4, 1.0, 0.0, 8, false), 1.0, 0.0);
    assert Slope(pen.vp, pen.k) == -1.0;
    assert ColumnStart(0, 4, 2, 1) == 2;
    RisingTraceMonotoneIff([0, 1, 2, 3], pen, 0, 4, 2);
  }

  // ---- the drawing as a whole ---------------------------------------------------------------

  /** Counts are drawn where their voltages belong, whichever map is used. */
  lemma PenIsExact(pen: Pen, c: Count)
    ensures pen.Y(c) == VoltsToY(Volts(c, pen.k, pen.zero), pen.vp)
  {
    hide Volts;
    if MakeYMap(pen.vp).valid {
      FastMapRefines(Volts(c, pen.k, pen.zero), pen.vp);
    }
  }

  /** Every vertex is drawn at the height of a sample on screen. */
  lemma VerticesAreShownSamples(samples: seq<Count>, k: real, zero: real, vp: Viewport, j: nat) returns (i: nat)
    requires j < |TraceOf(samples, k, zero, vp).1|
    ensures i < |samples| && vp.firstSample <= i < vp.firstSample + vp.sampleCount
    ensures TraceOf(samples, k, zero, vp).1[j].y == VoltsToY(Volts(samples[i], k, zero), vp)
  {
    hide YOf, VoltsToY, VertexCounts;
    var (first, count) := Shown(vp, |samples|);
    var pen, columns := Pen(vp, k, zero), Columns(vp.width);
    if count <= columns {
      i := first + j;
    } else {
      VertexIsASample(samples, pen, first, count, columns, j);
      var c := VertexCounts(samples, pen, first, count, columns, columns)[j];
      var m :| 0 <= m < count && samples[first..first + count][m] == c;
      i := first + m;
    }
    PenIsExact(pen, samples[i]);
  }

  /** Every sample on screen is a vertex, or lies between the two vertices of one column. */
  lemma ShownSamplesAreDrawn(samples: seq<Count>, k: real, zero: real, vp: Viewport, i: nat) returns (j: nat)
    requires vp.width > 0.0 && i < |samples| && vp.firstSample <= i < vp.firstSample + vp.sampleCount
    ensures var out, y := TraceOf(samples, k, zero, vp).1, VoltsToY(Volts(samples[i], k, zero), vp);
            && j < |out|
            && (out[j].y == y
                || (j + 1 < |out| && out[j].x == out[j + 1].x && Between(out[j].y, y, out[j + 1].y)))
  {
    hide YOf, VoltsToY, VertexCounts, Between;
    var (first, count) := Shown(vp, |samples|);
    var pen, columns := Pen(vp, k, zero), Columns(vp.width);
    PenIsExact(pen, samples[i]);
    if count <= columns {
      j := i - first;
    } else {
      var c, p, q := NoSampleIsHidden(samples, pen, first, count, columns, i);
      j := 2 * c;
      assert (2 * c) / 2 == c && (2 * c + 1) / 2 == c;
    }
  }

  /** Panning is dropping: the samples before the first one on screen could as well not be there. */
  lemma PanningIsDropping(samples: seq<Count>, k: real, zero: real, vp: Viewport)
    ensures var skipped := if vp.firstSample < |samples| then vp.firstSample else |samples|;
            TraceOf(samples, k, zero, vp) == TraceOf(samples[skipped..], k, zero, vp.(firstSample := 0))
  {
    hide YOf, VertexCounts, EnvelopePoints, InterpolatedPoints;
    var (first, count) := Shown(vp, |samples|);
    var other := vp.(firstSample := 0);
    assert Shown(other, |samples[first..]|) == (0, count);
    var pen, pen0, columns := Pen(vp, k, zero), Pen(other, k, zero), Columns(vp.width);
    SamePen(vp, other, k, zero);
    if vp.width > 0.0 && count > columns {
      SameVertices(samples, pen, pen0, first, count, columns, columns);
      SamePoints(pen, pen0, VertexCounts(samples, pen, first, count, columns, columns));
    } else if vp.width > 0.0 && count > 0 {
      SameInterpolation(samples, pen, pen0, first, count);
    }
  }

  lemma SamePen(vp: Viewport, other: Viewport, k: real, zero: real)
    requires other == vp.(firstSample := other.firstSample)
    ensures forall c :: Pen(vp, k, zero).Y(c) == Pen(other, k, zero).Y(c)
  {
  }

  lemma SamePoints(pen: Pen, other: Pen, counts: seq<Count>)
    requires (forall c :: pen.Y(c) == other.Y(c)) && pen.vp.x == other.vp.x
    ensures EnvelopePoints(pen, counts) == EnvelopePoints(other, counts)
  {
    hide YOf;
  }

  lemma SameInterpolation(samples: seq<Count>, pen: Pen, other: Pen, first: nat, count: nat)
    requires (forall c :: pen.Y(c) == other.Y(c)) && pen.vp.x == other.vp.x && pen.vp.width == other.vp.width
    requires first + count <= |samples|
    ensures InterpolatedPoints(samples, pen, first, count) == InterpolatedPoints(samples[first..], other, 0, count)
  {
    hide YOf;
    var here := InterpolatedPoints(samples, pen, first, count);
    var there := InterpolatedPoints(samples[first..], other, 0, count);
    forall i | 0 <= i < count ensures here[i] == there[i] {
      assert samples[first..][0 + i] == samples[first + i];
    }
  }

  lemma {:induction false} SameVertices(samples: seq<Count>, pen: Pen, other: Pen, first: nat, count: nat,
                                        columns: nat, n: nat)
    requires 0 < columns < count && n <= columns && first + count <= |samples|
    requires forall c :: pen.Y(c) == other.Y(c)
    ensures VertexCounts(samples, pen, first, count, columns, n)
         == VertexCounts(samples[first..], other, 0, count, columns, n)
  {
    hide YOf, MinOf, MaxOf, VertexCounts, ColumnVertices, Slice;
    if n == 0 {
      NothingDrawn(samples, pen, first, count, columns);
      NothingDrawn(samples[first..], other, 0, count, columns);
    } else {
      SameVertices(samples, pen, other, first, count, columns, n - 1);
      SameSlice(samples, first, count, columns, n - 1);
      OneMoreColumn(samples, pen, first, count, columns, n - 1);
      OneMoreColumn(samples[first..], other, 0, count, columns, n - 1);
      var s := Slice(samples, first, count, columns, n - 1);
      SameColumnVertices(pen, other, VertexCounts(samples, pen, first, count, columns, n - 1), MinOf(s), MaxOf(s));
    }
  }

  lemma SameSlice(samples: seq<Count>, first: nat, count: nat, columns: nat, c: nat)
    requires 0 < columns < count && c < columns && first + count <= |samples|
    ensures Slice(samples, first, count, columns, c) == Slice(samples[first..], 0, count, columns, c)
  {
    SliceIs(samples, first, count, columns, c);
    SliceIs(samples[first..], 0, count, columns, c);
  }

  lemma SameColumnVertices(pen: Pen, other: Pen, before: seq<Count>, mn: Count, mx: Count)
    requires forall c :: pen.Y(c) == other.Y(c)
    ensures ColumnVertices(pen, before, mn, mx) == ColumnVertices(other, before, mn, mx)
  {
    hide YOf;
  }

  /** Where vertices stand: spread from edge to edge, or two to a pixel column. */
  lemma VerticesAcross(samples: seq<Count>, k: real, zero: real, vp: Viewport)
    ensures var (path, out) := TraceOf(samples, k, zero, vp);
            && (path == Interpolated ==>
                  && out != [] && out[0].x == vp.x && (|out| > 1 ==> out[|out| - 1].x == vp.x + vp.width)
                  && forall i :: 0 < i < |out| - 1 ==> out[i].x - out[i - 1].x == out[i + 1].x - out[i].x)
            && (path == Envelope ==>
                  && (if vp.width < 1.0 then |out| == 2 else 2.0 * vp.width - 2.0 < |out| as real <= 2.0 * vp.width)
                  && forall i :: 0 <= i < |out| ==> out[i].x == vp.x + (i / 2) as real)
  {
    hide YOf, VertexCounts, InterpolatedPoints, EnvelopePoints;
    var (first, count) := Shown(vp, |samples|);
    var pen, columns := Pen(vp, k, zero), Columns(vp.width);
    if vp.width <= 0.0 || count == 0 {
    } else if count <= columns {
      SpreadAcross(samples, pen, first, count);
    } else {
      TwoToAColumn(pen, VertexCounts(samples, pen, first, count, columns, columns));
      assert 2 * columns == |TraceOf(samples, k, zero, vp).1|;
    }
  }

  lemma SpreadAcross(samples: seq<Count>, pen: Pen, first: nat, count: nat)
    requires 0 < count && first + count <= |samples|
    ensures var out := InterpolatedPoints(samples, pen, first, count);
            && out[0].x == pen.vp.x && (count > 1 ==> out[count - 1].x == pen.vp.x + pen.vp.width)
            && forall i :: 0 < i < count - 1 ==> out[i].x - out[i - 1].x == out[i + 1].x - out[i].x
  {
    hide YOf;
    if count > 1 {
      EvenSteps(pen.vp.width, count);
    }
  }

  lemma TwoToAColumn(pen: Pen, counts: seq<Count>)
    ensures forall i :: 0 <= i < |counts| ==> EnvelopePoints(pen, counts)[i].x == pen.vp.x + (i / 2) as real
  {
    hide YOf;
  }

  lemma EvenSteps(width: real, count: nat)
    requires count > 1
    ensures (count - 1) as real * (width / (count - 1) as real) == width
  {
  }

  /** Positive volts go up: the ends of the range are drawn at the top and bottom edges, or the other way round. */
  lemma RangeFillsTheScreen(vp: Viewport)
    requires vp.Span() > 0.0
    ensures var half := vp.verticalDivisions as real * vp.voltsPerDiv / 2.0;
            && VoltsToY(half - vp.offsetVolts, vp) == (if vp.inverted then vp.y + vp.height else vp.y)
            && VoltsToY(-half - vp.offsetVolts, vp) == (if vp.inverted then vp.y else vp.y + vp.height)
            && VoltsToY(-vp.offsetVolts, vp) == vp.y + vp.height / 2.0
  {
    var half, span := vp.Span() / 2.0, vp.Span();
    assert half / span == 0.5 && -half / span == -0.5 && 0.0 / span == 0.0;
  }

  /** Without a range everything is drawn half way down, and without a height nothing is read back. */
  lemma NoRangeIsTheMiddle(volts: real, vp: Viewport)
    ensures vp.verticalDivisions as real * vp.voltsPerDiv <= 0.0 ==> VoltsToY(volts, vp) == vp.y + vp.height / 2.0
    ensures vp.height <= 0.0 ==> YToVolts(volts, vp) == 0.0
  {
  }
}
