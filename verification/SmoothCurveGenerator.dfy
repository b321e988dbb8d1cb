// src/smooth_curve_generator.cpp: the painter path through a list of points.
module SmoothCurveGenerator {
  import opened Tridiagonal
  import opened Spline
  import opened SplineTheorems

  datatype Point = Point(x: real, y: real)

  // One cubicTo: two control points and the end point. The segment starts where the path is.
  datatype Segment = Segment(c1: Point, c2: Point, end: Point)

  datatype Path = Empty | Path(start: Point, segments: seq<Segment>)

  function Xs(points: seq<Point>): (s: seq<real>)
    ensures |s| == |points|
    ensures forall i :: 0 <= i < |points| ==> s[i] == points[i].x
  {
    seq(|points|, i requires 0 <= i < |points| => points[i].x)
  }

  function Ys(points: seq<Point>): (s: seq<real>)
    ensures |s| == |points|
    ensures forall i :: 0 <= i < |points| ==> s[i] == points[i].y
  {
    seq(|points|, i requires 0 <= i < |points| => points[i].y)
  }

  // Entry i of the right-hand side, for the coordinates of three neighbouring knots.
  function RightHandSideAt(n: nat, i: nat, at: real, next: real): real {
    if i == 0 then at + 2.0 * next else if i < n - 1 then 4.0 * at + 2.0 * next else (8.0 * at + next) / 2.0
  }

  // Entries from .. to-1 of r are those of the right-hand side.
  ghost predicate Entries(r: seq<real>, k: seq<real>, from: nat, to: nat) {
    && |k| == |r| + 1 && to <= |r|
    && forall i :: from <= i < to ==> r[i] == RightHandSideAt(|r|, i, k[i], k[i + 1])
  }

  lemma NextEntry(r: seq<real>, k: seq<real>, i: nat, v: real)
    requires Entries(r, k, 1, i) && i < |r| && v == RightHandSideAt(|r|, i, k[i], k[i + 1])
    ensures Entries(r[i := v], k, 1, i + 1)
  {
  }

  lemma AllEntries(r: seq<real>, k: seq<real>, first: real, last: real)
    requires 2 <= |r| && Entries(r, k, 1, |r| - 1)
    requires first == RightHandSideAt(|r|, 0, k[0], k[1])
    requires last == RightHandSideAt(|r|, |r| - 1, k[|r| - 1], k[|r|])
    ensures r[0 := first][|r| - 1 := last] == RightHandSide(k)
  {
  }

  method SetRightHandSides(knots: seq<Point>, rhsx: array<real>, rhsy: array<real>, n: nat)
    requires 3 <= |knots| == n + 1 && rhsx.Length == rhsy.Length == n && rhsx != rhsy
    modifies rhsx, rhsy
    ensures rhsx[..] == RightHandSide(Xs(knots))
    ensures rhsy[..] == RightHandSide(Ys(knots))
  {
    ghost var rx, ry := rhsx[..], rhsy[..];
    for i := 1 to n - 1
      invariant rhsx[..] == rx && Entries(rx, Xs(knots), 1, i)
      invariant rhsy[..] == ry && Entries(ry, Ys(knots), 1, i)
    {
      rhsx[i] := 4.0 * knots[i].x + 2.0 * knots[i + 1].x;
      rhsy[i] := 4.0 * knots[i].y + 2.0 * knots[i + 1].y;
      NextEntry(rx, Xs(knots), i, rhsx[i]);
      NextEntry(ry, Ys(knots), i, rhsy[i]);
      rx, ry := rx[i := rhsx[i]], ry[i := rhsy[i]];
    }
    rhsx[0] := knots[0].x + 2.0 * knots[1].x;
    rhsx[n - 1] := (8.0 * knots[n - 1].x + knots[n].x) / 2.0;
    rhsy[0] := knots[0].y + 2.0 * knots[1].y;
    rhsy[n - 1] := (8.0 * knots[n - 1].y + knots[n].y) / 2.0;
    AllEntries(rx, Xs(knots), rhsx[0], rhsx[n - 1]);
    AllEntries(ry, Ys(knots), rhsy[0], rhsy[n - 1]);
  }

  // The coordinates of the first control points: set up and solve both systems.
  method FirstControlValues(knots: seq<Point>, n: nat) returns (xs: array<real>, ys: array<real>)
    requires 3 <= |knots| == n + 1
    ensures xs.Length == ys.Length == n
    ensures Solves(xs[..], RightHandSide(Xs(knots)))
    ensures Solves(ys[..], RightHandSide(Ys(knots)))
  {
    xs, ys := new real[n], new real[n];
    var rhsx, rhsy := new real[n], new real[n];
    SetRightHandSides(knots, rhsx, rhsy, n);
    CalculateFirstControlPoints(xs, rhsx, n);
    CalculateFirstControlPoints(ys, rhsy, n);
  }

  // Fill the output control points.
  method FillControlPoints(knots: seq<Point>, xs: array<real>, ys: array<real>, n: nat,
                           first0: seq<Point>, second0: seq<Point>)
    returns (first: seq<Point>, second: seq<Point>)
    requires 3 <= |knots| == n + 1 && |first0| == |second0| == n == xs.Length == ys.Length
    requires Solves(xs[..], RightHandSide(Xs(knots))) && Solves(ys[..], RightHandSide(Ys(knots)))
    ensures Natural(Xs(knots), Xs(first), Xs(second))
    ensures Natural(Ys(knots), Ys(first), Ys(second))
  {
    first, second := first0, second0;
    for i := 0 to n
      invariant |first| == |second| == n
      invariant forall k :: 0 <= k < i ==> first[k] == Point(xs[k], ys[k])
      invariant forall k :: 0 <= k < i && k < n - 1 ==>
                  second[k] == Point(2.0 * knots[k + 1].x - xs[k + 1], 2.0 * knots[k + 1].y - ys[k + 1])
      invariant i == n ==>
                  second[n - 1] == Point((knots[n].x + xs[n - 1]) / 2.0, (knots[n].y + ys[n - 1]) / 2.0)
    {
      first := first[i := Point(xs[i], ys[i])];
      if i < n - 1 {
        second := second[i := Point(2.0 * knots[i + 1].x - xs[i + 1], 2.0 * knots[i + 1].y - ys[i + 1])];
      } else {
        second := second[i := Point((knots[n].x + xs[n - 1]) / 2.0, (knots[n].y + ys[n - 1]) / 2.0)];
      }
    }
    FilledControls(knots, xs[..], ys[..], first, second);
  }

  method CalculateControlPoints(knots: seq<Point>) returns (first: seq<Point>, second: seq<Point>)
    requires 2 <= |knots|
    ensures Natural(Xs(knots), Xs(first), Xs(second))
    ensures Natural(Ys(knots), Ys(first), Ys(second))
  {
    var n := |knots| - 1;
    first, second := [], [];
    for i := 0 to n
      invariant |first| == |second| == i
    {
      first := first + [Point(0.0, 0.0)];
      second := second + [Point(0.0, 0.0)];
    }

    if n == 1 {
      // Special case: the Bezier curve is a straight line.
      first := first[0 := Point((2.0 * knots[0].x + knots[1].x) / 3.0, (2.0 * knots[0].y + knots[1].y) / 3.0)];
      second := second[0 := Point(2.0 * first[0].x - knots[0].x, 2.0 * first[0].y - knots[0].y)];
      StraightLine(knots, first[0], second[0]);
      assert first == [first[0]] && second == [second[0]];
    } else {
      var xs, ys := FirstControlValues(knots, n);
      first, second := FillControlPoints(knots, xs, ys, n, first, second);
    }
  }

  lemma StraightLine(knots: seq<Point>, c1: Point, c2: Point)
    requires |knots| == 2
    requires c1 == Point((2.0 * knots[0].x + knots[1].x) / 3.0, (2.0 * knots[0].y + knots[1].y) / 3.0)
    requires c2 == Point(2.0 * c1.x - knots[0].x, 2.0 * c1.y - knots[0].y)
    ensures Natural(Xs(knots), Xs([c1]), Xs([c2]))
    ensures Natural(Ys(knots), Ys([c1]), Ys([c2]))
  {
    NaturalMeans(Xs(knots), Xs([c1]), Xs([c2]));
    NaturalMeans(Ys(knots), Ys([c1]), Ys([c2]));
  }

  lemma FilledControls(knots: seq<Point>, xs: seq<real>, ys: seq<real>, first: seq<Point>, second: seq<Point>)
    requires 3 <= |knots| && |xs| == |ys| == |first| == |second| == |knots| - 1
    requires Solves(xs, RightHandSide(Xs(knots))) && Solves(ys, RightHandSide(Ys(knots)))
    requires forall k :: 0 <= k < |xs| ==> first[k] == Point(xs[k], ys[k])
    requires forall k :: 0 <= k < |xs| - 1 ==>
               second[k] == Point(2.0 * knots[k + 1].x - xs[k + 1], 2.0 * knots[k + 1].y - ys[k + 1])
    requires second[|xs| - 1] == Point((knots[|xs|].x + xs[|xs| - 1]) / 2.0, (knots[|xs|].y + ys[|xs| - 1]) / 2.0)
    ensures Natural(Xs(knots), Xs(first), Xs(second))
    ensures Natural(Ys(knots), Ys(first), Ys(second))
  {
    assert Xs(first) == xs && Xs(second) == SecondFrom(Xs(knots), xs);
    NaturalIsSolution(Xs(knots), Xs(first), Xs(second));
    assert Ys(first) == ys && Ys(second) == SecondFrom(Ys(knots), ys);
    NaturalIsSolution(Ys(knots), Ys(first), Ys(second));
  }

  // The path the generator builds from given control points.
  function PathThrough(points: seq<Point>, first: seq<Point>, second: seq<Point>): (path: Path)
    requires 2 <= |points| && |first| == |second| == |points| - 1
  {
    Path(points[0], seq(|first|, i requires 0 <= i < |first| => Segment(first[i], second[i], points[i + 1])))
  }

  method GenerateSmoothCurve(points: seq<Point>) returns (path: Path)
    ensures NaturalPath(path, points)
  {
    path := Empty;
    if |points| < 2 {
      return;
    }
    var first, second := CalculateControlPoints(points);
    path := Path(points[0], []);
    for i := 0 to |points| - 1
      invariant path.Path? && path.start == points[0] && |path.segments| == i
      invariant forall k :: 0 <= k < i ==> path.segments[k] == Segment(first[k], second[k], points[k + 1])
    {
      path := Path(path.start, path.segments + [Segment(first[i], second[i], points[i + 1])]);
    }
    BuiltPath(path, points, first, second);
  }

  lemma BuiltPath(path: Path, points: seq<Point>, first: seq<Point>, second: seq<Point>)
    requires path.Path? && |points| == |path.segments| + 1 && |first| == |second| == |path.segments|
    requires path.start == points[0]
    requires forall k :: 0 <= k < |first| ==> path.segments[k] == Segment(first[k], second[k], points[k + 1])
    ensures Knots(path) == points && FirstControls(path) == first && SecondControls(path) == second
  {
  }

  // ----- what a path is

  function Knots(path: Path): (points: seq<Point>)
    requires path.Path?
    ensures |points| == |path.segments| + 1
  {
    seq(|path.segments| + 1, i requires 0 <= i <= |path.segments| =>
      if i == 0 then path.start else path.segments[i - 1].end)
  }

  function FirstControls(path: Path): (points: seq<Point>)
    requires path.Path?
    ensures |points| == |path.segments|
  {
    seq(|path.segments|, i requires 0 <= i < |path.segments| => path.segments[i].c1)
  }

  function SecondControls(path: Path): (points: seq<Point>)
    requires path.Path?
    ensures |points| == |path.segments|
  {
    seq(|path.segments|, i requires 0 <= i < |path.segments| => path.segments[i].c2)
  }

  function SegmentX(path: Path, i: nat): Cubic
    requires path.Path? && i < |path.segments|
  {
    Cubic(Knots(path)[i].x, path.segments[i].c1.x, path.segments[i].c2.x, path.segments[i].end.x)
  }

  function SegmentY(path: Path, i: nat): Cubic
    requires path.Path? && i < |path.segments|
  {
    Cubic(Knots(path)[i].y, path.segments[i].c1.y, path.segments[i].c2.y, path.segments[i].end.y)
  }

  // The point of segment i at parameter t.
  function CurvePoint(path: Path, i: nat, t: real): Point
    requires path.Path? && i < |path.segments|
  {
    Point(SegmentX(path, i).Value(t), SegmentY(path, i).Value(t))
  }

  // Goes through the points and has one velocity at every inner point.
  ghost predicate SmoothPath(path: Path, points: seq<Point>) {
    && path.Path? && Knots(path) == points
    && Smooth(Xs(points), Xs(FirstControls(path)), Xs(SecondControls(path)))
    && Smooth(Ys(points), Ys(FirstControls(path)), Ys(SecondControls(path)))
  }

  // Empty for fewer than two points, otherwise a natural cubic spline through them in both coordinates.
  ghost predicate NaturalPath(path: Path, points: seq<Point>) {
    if |points| < 2 then path == Empty
    else
      && path.Path? && Knots(path) == points
      && Natural(Xs(points), Xs(FirstControls(path)), Xs(SecondControls(path)))
      && Natural(Ys(points), Ys(FirstControls(path)), Ys(SecondControls(path)))
  }

  lemma SamePath(path: Path, path': Path)
    requires path.Path? && path'.Path?
    requires Knots(path) == Knots(path') && FirstControls(path) == FirstControls(path')
    requires SecondControls(path) == SecondControls(path')
    ensures path == path'
  {
    assert path.start == Knots(path)[0] == Knots(path')[0];
    forall i | 0 <= i < |path.segments|
      ensures path.segments[i] == path'.segments[i]
    {
      assert path.segments[i].c1 == FirstControls(path)[i] == FirstControls(path')[i];
      assert path.segments[i].c2 == SecondControls(path)[i] == SecondControls(path')[i];
      assert path.segments[i].end == Knots(path)[i + 1] == Knots(path')[i + 1];
    }
  }

  lemma SamePoints(a: seq<Point>, b: seq<Point>)
    requires Xs(a) == Xs(b) && Ys(a) == Ys(b)
    ensures a == b
  {
    forall i | 0 <= i < |a|
      ensures a[i] == b[i]
    {
      assert Xs(a)[i] == Xs(b)[i] && Ys(a)[i] == Ys(b)[i];
    }
  }

  lemma NaturalPathControls(path: Path, points: seq<Point>)
    requires 2 <= |points| && NaturalPath(path, points)
    ensures Xs(FirstControls(path)) == First(Xs(points)) && Ys(FirstControls(path)) == First(Ys(points))
    ensures Xs(SecondControls(path)) == Second(Xs(points)) && Ys(SecondControls(path)) == Second(Ys(points))
  {
    GeneratesNaturalSpline(Xs(points), Xs(FirstControls(path)), Xs(SecondControls(path)));
    GeneratesNaturalSpline(Ys(points), Ys(FirstControls(path)), Ys(SecondControls(path)));
  }

  // Every list of points has exactly one such path, so GenerateSmoothCurve returns that one.
  lemma NaturalPathIsUnique(path: Path, path': Path, points: seq<Point>)
    ensures NaturalPath(path, points) && NaturalPath(path', points) ==> path == path'
  {
    if 2 <= |points| && NaturalPath(path, points) && NaturalPath(path', points) {
      NaturalPathControls(path, points);
      NaturalPathControls(path', points);
      SamePoints(FirstControls(path), FirstControls(path'));
      SamePoints(SecondControls(path), SecondControls(path'));
      SamePath(path, path');
    }
  }

  // ----- the same curve backwards

  function ReversedPoints(points: seq<Point>): (r: seq<Point>)
    ensures |r| == |points|
  {
    seq(|points|, i requires 0 <= i < |points| => points[|points| - 1 - i])
  }

  function ReversedPath(path: Path): Path {
    if path.Empty? || |path.segments| == 0 then path
    else
      PathThrough(
        ReversedPoints(Knots(path)), ReversedPoints(SecondControls(path)), ReversedPoints(FirstControls(path)))
  }

  lemma ReversedPathParts(path: Path)
    requires path.Path? && 0 < |path.segments|
    ensures var r := ReversedPath(path);
            && r.Path?
            && Knots(r) == ReversedPoints(Knots(path))
            && FirstControls(r) == ReversedPoints(SecondControls(path))
            && SecondControls(r) == ReversedPoints(FirstControls(path))
  {
  }

  lemma ReversedCoordinates(points: seq<Point>)
    ensures Xs(ReversedPoints(points)) == Reversed(Xs(points))
    ensures Ys(ReversedPoints(points)) == Reversed(Ys(points))
  {
  }

  lemma ReversedNatural(k: seq<real>, p: seq<real>, q: seq<real>)
    requires Natural(k, p, q)
    ensures Natural(Reversed(k), Reversed(q), Reversed(p))
  {
    GeneratesNaturalSpline(k, p, q);
    ReversalSymmetry(k);
    GeneratesNaturalSpline(Reversed(k), Reversed(q), Reversed(p));
  }

  // The path through the reversed points is the reversed path ...
  lemma GeneratorCommutesWithReversal(path: Path, points: seq<Point>)
    requires NaturalPath(path, points)
    ensures NaturalPath(ReversedPath(path), ReversedPoints(points))
  {
    if 2 <= |points| {
      ReversedPathParts(path);
      ReversedCoordinates(points);
      ReversedCoordinates(FirstControls(path));
      ReversedCoordinates(SecondControls(path));
      ReversedNatural(Xs(points), Xs(FirstControls(path)), Xs(SecondControls(path)));
      ReversedNatural(Ys(points), Ys(FirstControls(path)), Ys(SecondControls(path)));
    }
  }

  lemma ReversedCubic(c: Cubic, t: real)
    ensures Cubic(c.k1, c.q, c.p, c.k0).Value(1.0 - t) == c.Value(t)
  {
    assert Weight(0, 1.0 - t) == Weight(3, t) && Weight(3, 1.0 - t) == Weight(0, t);
    assert Weight(1, 1.0 - t) == Weight(2, t) && Weight(2, 1.0 - t) == Weight(1, t);
  }

  lemma ReversedSegment(path: Path, i: nat)
    requires path.Path? && i < |path.segments|
    ensures |ReversedPath(path).segments| == |path.segments|
    ensures var r, j := ReversedPath(path), |path.segments| - 1 - i;
            && Knots(r)[j] == path.segments[i].end && r.segments[j].end == Knots(path)[i]
            && r.segments[j].c1 == path.segments[i].c2 && r.segments[j].c2 == path.segments[i].c1
  {
    var j := |path.segments| - 1 - i;
    ReversedPathParts(path);
    PartsOfSegment(path, i);
    PartsOfSegment(ReversedPath(path), j);
    assert ReversedPoints(Knots(path))[j] == Knots(path)[i + 1];
    assert ReversedPoints(Knots(path))[j + 1] == Knots(path)[i];
  }

  lemma PartsOfSegment(path: Path, i: nat)
    requires path.Path? && i < |path.segments|
    ensures path.segments[i].c1 == FirstControls(path)[i] && path.segments[i].c2 == SecondControls(path)[i]
    ensures path.segments[i].end == Knots(path)[i + 1]
  {
  }

  // ... and consists of the same points.
  lemma ReversedPathPoints(path: Path, i: nat, t: real)
    requires path.Path? && i < |path.segments|
    ensures |ReversedPath(path).segments| == |path.segments|
    ensures CurvePoint(ReversedPath(path), |path.segments| - 1 - i, 1.0 - t) == CurvePoint(path, i, t)
  {
    ReversedSegment(path, i);
    ReversedCubic(SegmentX(path, i), t);
    ReversedCubic(SegmentY(path, i), t);
  }

  // ----- least bending

  function PathBending(path: Path): real
    requires path.Path? && 0 < |path.segments|
  {
    Bending(Xs(Knots(path)), Xs(FirstControls(path)), Xs(SecondControls(path)))
    + Bending(Ys(Knots(path)), Ys(FirstControls(path)), Ys(SecondControls(path)))
  }

  // Of all smooth cubic paths through the points the generated one bends least, and every other one
  // bends strictly more.
  lemma LeastBendingPath(path: Path, other: Path, points: seq<Point>)
    requires 2 <= |points| && NaturalPath(path, points) && SmoothPath(other, points)
    ensures PathBending(path) <= PathBending(other)
    ensures PathBending(path) == PathBending(other) <==> path == other
  {
    NaturalPathControls(path, points);
    LeastBending(Xs(points), Xs(FirstControls(other)), Xs(SecondControls(other)));
    LeastBending(Ys(points), Ys(FirstControls(other)), Ys(SecondControls(other)));
    if PathBending(path) == PathBending(other) {
      SamePoints(FirstControls(path), FirstControls(other));
      SamePoints(SecondControls(path), SecondControls(other));
      SamePath(path, other);
    }
  }
}
