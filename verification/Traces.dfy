// What every monitor's updateStatus does with one trace: keep a sliding window of samples, find its
// peak, scale the samples to heights and draw a smooth curve through them.
module Traces {
  import opened Tridiagonal
  import opened Spline
  import opened SplineTheorems
  import opened SmoothCurveGenerator

  // ----- the sliding window

  function Zeros(n: nat): (s: seq<real>)
    ensures |s| == n
  {
    seq(n, _ => 0.0)
  }

  // The last n elements of n initial zeros followed by all samples received.
  function Window(received: seq<real>, n: nat): (w: seq<real>)
    ensures |w| == n
  {
    (Zeros(n) + received)[|received|..]
  }

  method PushSample(speeds: seq<real>, sample: real, pointsNumber: nat, ghost received: seq<real>)
    returns (w: seq<real>)
    requires speeds == Window(received, pointsNumber)
    ensures w == Window(received + [sample], pointsNumber)
  {
    w := speeds + [sample];
    if |w| > pointsNumber {
      w := w[1..];
    }
    assert Zeros(pointsNumber) + (received + [sample]) == (Zeros(pointsNumber) + received) + [sample];
  }

  // w holds the n latest samples, the newest last; before the first sample there are zeros.
  predicate HoldsLatest(w: seq<real>, received: seq<real>, n: nat) {
    && |w| == n
    && forall i :: 0 <= i < n ==>
         w[i] == if n - i <= |received| then received[|received| - (n - i)] else 0.0
  }

  lemma WindowHoldsLatest(received: seq<real>, n: nat)
    ensures HoldsLatest(Window(received, n), received, n)
  {
    forall i | 0 <= i < n
      ensures Window(received, n)[i] == if n - i <= |received| then received[|received| - (n - i)] else 0.0
    {
      assert Window(received, n)[i] == (Zeros(n) + received)[|received| + i];
    }
  }

  // ----- its peak

  // The largest sample, or zero if all are negative.
  function Peak(w: seq<real>): (m: real)
    ensures 0.0 <= m
    ensures forall i :: 0 <= i < |w| ==> w[i] <= m
    ensures m == 0.0 || m in w
  {
    if w == [] then 0.0
    else
      var m := Peak(w[..|w| - 1]);
      if m < w[|w| - 1] then w[|w| - 1] else m
  }

  method MaxHeight(speeds: seq<real>) returns (m: real)
    ensures m == Peak(speeds)
  {
    m := 0.0;
    for i := 0 to |speeds|
      invariant m == Peak(speeds[..i])
    {
      assert speeds[..i + 1][..i] == speeds[..i];
      if speeds[i] > m {
        m := speeds[i];
      }
    }
    assert speeds[..] == speeds;
  }

  // ----- heights

  // How a trace is drawn: heights go up to `height`; a trace whose own peak reaches that is rescaled,
  // and then a `floored` trace shows no positive sample lower than one half.
  datatype Style = Style(height: int, floored: bool, offset: real)

  function Scaled(sample: real, height: real, divisor: real): real
    requires divisor != 0.0
  {
    sample * height / divisor
  }

  function Height(sample: real, peak: real, divisor: real, style: Style): real
    requires style.height as real <= peak ==> divisor != 0.0
  {
    if peak < style.height as real then sample
    else
      var scale := Scaled(sample, style.height as real, divisor);
      if style.floored && 0.0 < scale < 0.5 then 0.5 else scale
  }

  // The divisor is the trace's own peak or a common one, never less.
  predicate Scales(w: seq<real>, divisor: real, style: Style) {
    0 < style.height && Peak(w) <= divisor
  }

  function Heights(w: seq<real>, divisor: real, style: Style): (h: seq<real>)
    requires Scales(w, divisor, style)
    ensures |h| == |w|
  {
    seq(|w|, i requires 0 <= i < |w| => Height(w[i], Peak(w), divisor, style))
  }

  function TracePoints(w: seq<real>, divisor: real, style: Style): (points: seq<Point>)
    requires Scales(w, divisor, style)
    ensures |points| == |w|
  {
    seq(|w|, i requires 0 <= i < |w| => Point((5 * i) as real + style.offset, Heights(w, divisor, style)[i]))
  }

  // The height y shows sample i of w: as it is if all samples are below the height h, and otherwise so
  // that the sample `top` would be shown at h; a floored trace then shows 1/2 instead of less.
  predicate Shows(y: real, w: seq<real>, i: int, h: real, top: real, floored: bool)
    requires 0 <= i < |w|
  {
    if forall k :: 0 <= k < |w| ==> w[k] < h then y == w[i] else Rescales(y, w[i], h, top, floored)
  }

  predicate Rescales(y: real, sample: real, h: real, top: real, floored: bool) {
    if floored && 0.0 < sample * h < top / 2.0 then y == 0.5 else y * top == sample * h
  }

  lemma ScaledBack(sample: real, h: real, d: real)
    requires 0.0 < d
    ensures Scaled(sample, h, d) * d == sample * h
    ensures 0.0 < Scaled(sample, h, d) < 0.5 <==> 0.0 < sample * h < d / 2.0
  {
    var q := sample * h;
    if q <= 0.0 {
      QuotientOrder(q, 0.0, d);
    } else {
      QuotientOrder(0.0, q, d);
    }
    QuotientOrder(q, d / 2.0, d);
    QuotientOrder(d / 2.0, q, d);
    Cancel(d, 0.5);
    assert d / 2.0 == d * 0.5;
  }

  lemma QuotientOrder(a: real, b: real, d: real)
    requires 0.0 < d
    ensures a / d * d == a
    ensures a < b ==> a / d < b / d
    ensures a <= b ==> a / d <= b / d
  {
    if a < b {
      DivideOrder(a, b, d);
    }
  }

  lemma HeightValue(sample: real, peak: real, divisor: real, style: Style)
    requires 0 < style.height && peak <= divisor
    ensures var h, y := style.height as real, Height(sample, peak, divisor, style);
            if peak < h then y == sample else Rescales(y, sample, h, divisor, style.floored)
  {
    if style.height as real <= peak {
      ScaledBack(sample, style.height as real, divisor);
    }
  }

  lemma PeakBelow(w: seq<real>, h: real)
    requires 0.0 < h
    ensures Peak(w) < h <==> forall k :: 0 <= k < |w| ==> w[k] < h
  {
  }

  lemma HeightShows(w: seq<real>, divisor: real, style: Style, i: nat)
    requires Scales(w, divisor, style) && i < |w|
    ensures Shows(Heights(w, divisor, style)[i], w, i, style.height as real, divisor, style.floored)
  {
    PeakBelow(w, style.height as real);
    HeightValue(w[i], Peak(w), divisor, style);
  }

  method BuildPoints(speeds: seq<real>, peak: real, divisor: real, style: Style) returns (points: seq<Point>)
    requires Scales(speeds, divisor, style) && peak == Peak(speeds)
    ensures points == TracePoints(speeds, divisor, style)
    ensures |points| == |speeds|
    ensures forall i :: 0 <= i < |speeds| ==>
              && points[i].x == 5.0 * i as real + style.offset
              && Shows(points[i].y, speeds, i, style.height as real, divisor, style.floored)
  {
    points := [];
    for i := 0 to |speeds|
      invariant points == TracePoints(speeds, divisor, style)[..i]
    {
      ghost var before := points;
      if peak < style.height as real {
        points := points + [Point((i * 5) as real + style.offset, speeds[i])];
      } else {
        var scale := Scaled(speeds[i], style.height as real, divisor);
        if style.floored && scale > 0.0 && scale < 0.5 {
          scale := 0.5;
        }
        points := points + [Point((i * 5) as real + style.offset, scale)];
      }
      assert Heights(speeds, divisor, style)[i] == Height(speeds[i], peak, divisor, style);
      assert points == before + [TracePoints(speeds, divisor, style)[i]];
    }
    forall i | 0 <= i < |speeds|
      ensures Shows(points[i].y, speeds, i, style.height as real, divisor, style.floored)
    {
      HeightShows(speeds, divisor, style, i);
    }
  }

  lemma ScaleBound(sample: real, divisor: real, h: real)
    requires 0.0 < h && 0.0 < divisor && sample <= divisor
    ensures Scaled(sample, h, divisor) <= h
    ensures Scaled(sample, h, divisor) < 0.0 <==> sample < 0.0
    ensures Scaled(sample, h, divisor) == 0.0 <==> sample == 0.0
    ensures sample == divisor ==> Scaled(sample, h, divisor) == h
  {
    ScaleOrder(sample, divisor, divisor, h);
    ScaleOrder(sample, 0.0, divisor, h);
    ScaleOrder(0.0, sample, divisor, h);
    Cancel(divisor, h);
    assert Scaled(0.0, h, divisor) == 0.0;
  }

  lemma Cancel(d: real, h: real)
    requires 0.0 < d
    ensures Scaled(d, h, d) == h
  {
  }

  lemma ScaleOrder(a: real, b: real, d: real, h: real)
    requires 0.0 < h && 0.0 < d
    ensures a < b ==> Scaled(a, h, d) < Scaled(b, h, d)
    ensures a <= b ==> Scaled(a, h, d) <= Scaled(b, h, d)
  {
    if a < b {
      ProductIsPositive(b - a, h);
      assert Times(b - a, h) == b * h - a * h;
      DivideOrder(a * h, b * h, d);
    }
  }

  lemma DivideOrder(a: real, b: real, d: real)
    requires 0.0 < d && a < b
    ensures a / d < b / d
  {
  }

  lemma HeightOf(w: seq<real>, divisor: real, style: Style, i: nat)
    requires Scales(w, divisor, style) && i < |w|
    ensures var h := Heights(w, divisor, style)[i];
            && h <= style.height as real
            && (h < 0.0 <==> w[i] < 0.0)
            && (h == 0.0 <==> w[i] == 0.0)
            && (style.floored && style.height as real <= Peak(w) && 0.0 < w[i] ==> 0.5 <= h)
            && (style.height as real <= Peak(w) && w[i] == divisor ==> h == style.height as real)
  {
    if style.height as real <= Peak(w) {
      ScaleBound(w[i], divisor, style.height as real);
    }
  }

  // Heights never exceed the available height, and they all lie in [0, height] exactly when no sample
  // in the window is negative.
  lemma HeightsInRange(w: seq<real>, divisor: real, style: Style)
    requires Scales(w, divisor, style)
    ensures forall i: nat | i < |w| :: Heights(w, divisor, style)[i] <= style.height as real
    ensures Within(Heights(w, divisor, style), 0.0, style.height as real) <==> forall i: nat | i < |w| :: 0.0 <= w[i]
  {
    forall i: nat | i < |w|
      ensures Heights(w, divisor, style)[i] <= style.height as real
      ensures 0.0 <= Heights(w, divisor, style)[i] <==> 0.0 <= w[i]
    {
      HeightOf(w, divisor, style, i);
    }
  }

  // Heights are ordered as the samples are, the floor included.
  lemma HeightsKeepOrder(w: seq<real>, divisor: real, style: Style, i: nat, j: nat)
    requires Scales(w, divisor, style) && i < |w| && j < |w| && w[i] <= w[j]
    ensures Heights(w, divisor, style)[i] <= Heights(w, divisor, style)[j]
  {
    if style.height as real <= Peak(w) {
      ScaleOrder(w[i], w[j], divisor, style.height as real);
    }
  }

  // ----- the curve drawn through a trace

  // The path handed to the painter for a window of samples.
  ghost predicate Draws(path: Path, w: seq<real>, divisor: real, style: Style)
    requires Scales(w, divisor, style)
  {
    NaturalPath(path, TracePoints(w, divisor, style))
  }

  lemma TraceCoordinates(w: seq<real>, divisor: real, style: Style)
    requires Scales(w, divisor, style)
    ensures Xs(TracePoints(w, divisor, style)) == Progression(style.offset, 5.0, 0.0, |w|)
    ensures Ys(TracePoints(w, divisor, style)) == Heights(w, divisor, style)
  {
  }

  lemma ControlAbscissas(path: Path, w: seq<real>, divisor: real, style: Style, i: nat)
    requires Scales(w, divisor, style) && Draws(path, w, divisor, style)
    requires path.Path? && i < |path.segments|
    ensures path.segments[i].c1.x == style.offset + 5.0 * (i as real + 1.0 / 3.0)
    ensures path.segments[i].c2.x == style.offset + 5.0 * (i as real + 2.0 / 3.0)
  {
    NaturalPathControls(path, TracePoints(w, divisor, style));
    TraceCoordinates(w, divisor, style);
    ProgressionIsStraight(style.offset, 5.0, |w|);
    assert path.segments[i].c1.x == Xs(FirstControls(path))[i];
    assert path.segments[i].c2.x == Xs(SecondControls(path))[i];
  }

  lemma KnotAbscissas(path: Path, w: seq<real>, divisor: real, style: Style, i: nat)
    requires Scales(w, divisor, style) && Draws(path, w, divisor, style)
    requires path.Path? && i < |path.segments|
    ensures Knots(path)[i].x == style.offset + 5.0 * i as real
    ensures path.segments[i].end.x == style.offset + 5.0 * i as real + 5.0
  {
    var points := TracePoints(w, divisor, style);
    assert Knots(path)[i] == points[i] && path.segments[i].end == Knots(path)[i + 1] == points[i + 1];
  }

  lemma SegmentXOf(path: Path, w: seq<real>, divisor: real, style: Style, i: nat)
    requires Scales(w, divisor, style) && Draws(path, w, divisor, style)
    requires path.Path? && i < |path.segments|
    ensures var x := style.offset + 5.0 * i as real;
            SegmentX(path, i) == Cubic(x, x + 5.0 / 3.0, x + 2.0 * 5.0 / 3.0, x + 5.0)
  {
    ControlAbscissas(path, w, divisor, style, i);
    KnotAbscissas(path, w, divisor, style, i);
  }

  // The abscissa runs evenly: segment i covers [offset + 5i, offset + 5i + 5] linearly in its parameter.
  lemma AbscissaIsLinear(path: Path, w: seq<real>, divisor: real, style: Style, i: nat, t: real)
    requires Scales(w, divisor, style) && Draws(path, w, divisor, style)
    requires path.Path? && i < |path.segments|
    ensures CurvePoint(path, i, t).x == style.offset + 5.0 * (i as real + t)
  {
    SegmentXOf(path, w, divisor, style, i);
    StraightSegment(SegmentX(path, i), style.offset + 5.0 * i as real, 5.0, t);
  }

  // So the path is the graph of a function: no two of its points lie above each other.
  lemma PathIsAGraph(path: Path, w: seq<real>, divisor: real, style: Style, i: nat, s: real, j: nat, t: real)
    requires Scales(w, divisor, style)
    requires path.Path? && i < |path.segments| && j < |path.segments|
    requires 0.0 <= s <= 1.0 && 0.0 <= t <= 1.0
    ensures Draws(path, w, divisor, style) && CurvePoint(path, i, s).x == CurvePoint(path, j, t).x ==>
              CurvePoint(path, i, s) == CurvePoint(path, j, t)
    decreases i > j
  {
    if Draws(path, w, divisor, style) && CurvePoint(path, i, s).x == CurvePoint(path, j, t).x {
      AbscissaIsLinear(path, w, divisor, style, i, s);
      AbscissaIsLinear(path, w, divisor, style, j, t);
      assert i as real + s == j as real + t;
      if i > j {
        PathIsAGraph(path, w, divisor, style, j, t, i, s);
      } else if i < j {
        assert j == i + 1 && s == 1.0 && t == 0.0;
        SegmentEnds(SegmentY(path, i));
        SegmentEnds(SegmentY(path, j));
      } else {
        assert s == t;
      }
    }
  }

  // If no sample in the window is negative, every control point of the path lies at most one height
  // outside the strip [0, height], and the curve itself at most three quarters of a height.
  lemma PathStaysNearStrip(path: Path, w: seq<real>, divisor: real, style: Style, i: nat, t: real)
    requires Scales(w, divisor, style) && Draws(path, w, divisor, style)
    requires forall k: nat | k < |w| :: 0.0 <= w[k]
    requires path.Path? && i < |path.segments| && 0.0 <= t <= 1.0
    ensures var h := style.height as real;
            && -h <= path.segments[i].c1.y <= 2.0 * h
            && -h <= path.segments[i].c2.y <= 2.0 * h
            && -0.75 * h <= CurvePoint(path, i, t).y <= 1.75 * h
  {
    var points, h := TracePoints(w, divisor, style), style.height as real;
    NaturalPathControls(path, points);
    TraceCoordinates(w, divisor, style);
    HeightsInRange(w, divisor, style);
    var ys := Heights(w, divisor, style);
    BoundedOvershoot(ys, 0.0, h);
    assert path.segments[i].c1.y == First(ys)[i] && path.segments[i].c2.y == Second(ys)[i] by {
      assert path.segments[i].c1.y == Ys(FirstControls(path))[i];
      assert path.segments[i].c2.y == Ys(SecondControls(path))[i];
    }
    assert Knots(path)[i].y == ys[i] && path.segments[i].end.y == Knots(path)[i + 1].y == ys[i + 1];
    CurveOvershoot(SegmentY(path, i), 0.0, h, t);
  }

  method DrawTrace(speeds: seq<real>, peak: real, divisor: real, style: Style) returns (path: Path)
    requires Scales(speeds, divisor, style) && peak == Peak(speeds)
    ensures Draws(path, speeds, divisor, style)
  {
    var points := BuildPoints(speeds, peak, divisor, style);
    path := GenerateSmoothCurve(points);
  }

  // ----- the painted knots in terms of the samples

  // top is the largest sample of the two windows.
  predicate Largest(top: real, w: seq<real>, other: seq<real>) {
    && (top in w || top in other)
    && (forall k :: 0 <= k < |w| ==> w[k] <= top)
    && (forall k :: 0 <= k < |other| ==> other[k] <= top)
  }

  // The path shows the samples of w five apart; if they need rescaling the largest sample of w and of
  // `other` is shown at the height h.
  ghost predicate Paints(path: Path, w: seq<real>, other: seq<real>, h: real, floored: bool, offset: real) {
    if |w| < 2 then path == Empty
    else
      && path.Path? && |Knots(path)| == |w|
      && (forall i :: 0 <= i < |w| ==> Knots(path)[i].x == 5.0 * i as real + offset)
      && (forall i, top :: 0 <= i < |w| && Largest(top, w, other) ==>
            Shows(Knots(path)[i].y, w, i, h, top, floored))
  }

  // If some sample is not below the height, the larger of the two peaks is the largest sample.
  lemma LargestIsPeak(w: seq<real>, other: seq<real>, divisor: real, h: real, top: real)
    requires divisor == (if Peak(w) < Peak(other) then Peak(other) else Peak(w))
    requires Largest(top, w, other) && 0.0 < h <= Peak(w)
    ensures top == divisor
  {
  }

  lemma DrawnIsPainted(path: Path, w: seq<real>, other: seq<real>, divisor: real, style: Style)
    requires Scales(w, divisor, style) && Draws(path, w, divisor, style)
    requires divisor == (if Peak(w) < Peak(other) then Peak(other) else Peak(w))
    ensures Paints(path, w, other, style.height as real, style.floored, style.offset)
  {
    var h := style.height as real;
    forall i, top | 0 <= i < |w| && Largest(top, w, other) && 2 <= |w|
      ensures Shows(Knots(path)[i].y, w, i, h, top, style.floored)
    {
      assert Knots(path)[i] == TracePoints(w, divisor, style)[i];
      HeightShows(w, divisor, style, i);
      PeakBelow(w, h);
      if h <= Peak(w) {
        LargestIsPeak(w, other, divisor, h, top);
      }
    }
  }
}
