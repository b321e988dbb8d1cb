// One coordinate of the smooth curve: what the control points computed in
// src/smooth_curve_generator.cpp are, and how they depend on the knots.
module Spline {
  import opened Tridiagonal

  // The Bernstein polynomials of degree 3.
  function Weight(j: nat, t: real): real {
    var s := 1.0 - t;
    if j == 0 then s * s * s else if j == 1 then 3.0 * (s * s * t) else if j == 2 then 3.0 * (s * t * t) else t * t * t
  }

  // One coordinate of a cubic Bézier segment from k0 to k1 with control values p and q.
  datatype Cubic = Cubic(k0: real, p: real, q: real, k1: real) {
    function Value(t: real): real {
      Times(Weight(0, t), k0) + Times(Weight(1, t), p) + Times(Weight(2, t), q) + Times(Weight(3, t), k1)
    }

    function Velocity(t: real): real {
      var s := 1.0 - t;
      3.0 * (s * s * (p - k0) + 2.0 * (s * t) * (q - p) + t * t * (k1 - q))
    }

    function Acceleration(t: real): real {
      6.0 * ((1.0 - t) * Bend0() + t * Bend1())
    }

    // A sixth of the acceleration at either end.
    function Bend0(): real { k0 - 2.0 * p + q }

    function Bend1(): real { p - 2.0 * q + k1 }

    // The integral over [0, 1] of the squared acceleration, divided by 12; see BendingIsTheIntegral.
    function Bending(): real {
      Times(Bend0(), Bend0()) + Times(Bend0(), Bend1()) + Times(Bend1(), Bend1())
    }
  }

  function Powers(c1: real, c2: real, c3: real, t: real, u: real, v: real): real {
    c1 * t + c2 * u + c3 * v
  }

  function Polynomial(c1: real, c2: real, c3: real, t: real): real {
    Powers(c1, c2, c3, t, t * t, t * t * t)
  }

  function Slope(c1: real, c2: real, c3: real, t: real): real {
    c1 + 2.0 * c2 * t + 3.0 * c3 * (t * t)
  }

  function Curvature(c2: real, c3: real, t: real): real {
    2.0 * c2 + 6.0 * c3 * t
  }

  lemma WeightPowers(t: real)
    ensures Weight(0, t) == 1.0 - 3.0 * t + 3.0 * (t * t) - t * t * t
    ensures Weight(1, t) == 3.0 * t - 6.0 * (t * t) + 3.0 * (t * t * t)
    ensures Weight(2, t) == 3.0 * (t * t) - 3.0 * (t * t * t)
  {
  }

  lemma CollectPowers(c: Cubic, w0: real, w1: real, w2: real, t: real, u: real, v: real)
    requires w0 == 1.0 - 3.0 * t + 3.0 * u - v && w1 == 3.0 * t - 6.0 * u + 3.0 * v && w2 == 3.0 * u - 3.0 * v
    ensures Times(w0, c.k0) + Times(w1, c.p) + Times(w2, c.q) + Times(v, c.k1)
            == c.k0 + Powers(3.0 * (c.p - c.k0), 3.0 * c.Bend0(), c.Bend1() - c.Bend0(), t, u, v)
  {
    assert Times(w0, c.k0) == (1.0 - 3.0 * t + 3.0 * u - v) * c.k0;
    assert Times(w1, c.p) == (3.0 * t - 6.0 * u + 3.0 * v) * c.p;
    assert Times(w2, c.q) == (3.0 * u - 3.0 * v) * c.q;
  }

  lemma PowerBasis(c: Cubic, t: real)
    ensures c.Value(t) == c.k0 + Polynomial(3.0 * (c.p - c.k0), 3.0 * c.Bend0(), c.Bend1() - c.Bend0(), t)
  {
    WeightPowers(t);
    CollectPowers(c, Weight(0, t), Weight(1, t), Weight(2, t), t, t * t, Weight(3, t));
  }

  lemma VelocityBasis(c: Cubic, t: real)
    ensures c.Velocity(t) == Slope(3.0 * (c.p - c.k0), 3.0 * c.Bend0(), c.Bend1() - c.Bend0(), t)
  {
  }

  lemma AccelerationBasis(c: Cubic, t: real)
    ensures c.Acceleration(t) == Curvature(3.0 * c.Bend0(), c.Bend1() - c.Bend0(), t)
  {
  }

  lemma PolynomialTaylor(c1: real, c2: real, c3: real, t: real, h: real)
    ensures Polynomial(c1, c2, c3, t + h)
            == Polynomial(c1, c2, c3, t) + Times(h, Slope(c1, c2, c3, t))
               + Times(h * h / 2.0, Curvature(c2, c3, t)) + Times(h * h * h, c3)
  {
  }

  // Velocity and Acceleration are the first and second derivative of Value.
  lemma Taylor(c: Cubic, t: real, h: real)
    ensures c.Value(t + h) == c.Value(t) + Times(h, c.Velocity(t)) + Times(h * h / 2.0, c.Acceleration(t))
                              + Times(h * h * h, c.Bend1() - c.Bend0())
  {
    PowerBasis(c, t);
    PowerBasis(c, t + h);
    VelocityBasis(c, t);
    AccelerationBasis(c, t);
    PolynomialTaylor(3.0 * (c.p - c.k0), 3.0 * c.Bend0(), c.Bend1() - c.Bend0(), t, h);
  }

  lemma ProductIsPositive(a: real, b: real)
    requires 0.0 < a && 0.0 < b
    ensures 0.0 < Times(a, b)
  {
  }

  lemma NegatedSquare(a: real)
    ensures Times(-a, -a) == Times(a, a)
  {
  }

  lemma SquareIsPositive(a: real)
    ensures 0.0 <= Times(a, a)
    ensures a != 0.0 ==> 0.0 < Times(a, a)
  {
    if a < 0.0 {
      NegatedSquare(a);
      ProductIsPositive(-a, -a);
    } else if 0.0 < a {
      ProductIsPositive(a, a);
    } else {
      assert Times(0.0, 0.0) == 0.0;
    }
  }

  function EnergyOf(aa: real, ad: real, dd: real, t: real): real {
    36.0 * Times(aa, t) + 36.0 * Times(ad, t * t) + 12.0 * Times(dd, t * t * t)
  }

  // The integral of the squared acceleration from 0 to t; see BendingIsTheIntegral.
  function Energy(c: Cubic, t: real): real {
    var a, d := c.Bend0(), c.Bend1() - c.Bend0();
    EnergyOf(Times(a, a), Times(a, d), Times(d, d), t)
  }

  lemma EnergyPowers(aa: real, ad: real, dd: real, t: real, h: real, square: real, slope: real)
    requires square == 36.0 * aa + 72.0 * ad * t + 36.0 * dd * (t * t)
    requires slope == 36.0 * ad + 36.0 * dd * t
    ensures EnergyOf(aa, ad, dd, t + h)
            == EnergyOf(aa, ad, dd, t) + Times(h, square) + Times(h * h, slope) + Times(h * h * h, 12.0 * dd)
  {
    assert Times(h, square) == h * (36.0 * aa + 72.0 * ad * t + 36.0 * dd * (t * t));
    assert Times(h * h, slope) == h * h * (36.0 * ad + 36.0 * dd * t);
  }

  lemma AccelerationSquared(c: Cubic, t: real)
    ensures var a, d := c.Bend0(), c.Bend1() - c.Bend0();
            && Times(c.Acceleration(t), c.Acceleration(t))
               == 36.0 * Times(a, a) + 72.0 * Times(a, d) * t + 36.0 * Times(d, d) * (t * t)
            && 6.0 * Times(d, c.Acceleration(t)) == 36.0 * Times(a, d) + 36.0 * Times(d, d) * t
  {
    AccelerationBasis(c, t);
  }

  lemma EnergyExpansion(c: Cubic, t: real, h: real)
    ensures var acceleration, d := c.Acceleration(t), c.Bend1() - c.Bend0();
            Energy(c, t + h) == Energy(c, t) + Times(h, Times(acceleration, acceleration))
                                + Times(h * h, 6.0 * Times(d, acceleration)) + Times(h * h * h, 12.0 * Times(d, d))
  {
    var a, d := c.Bend0(), c.Bend1() - c.Bend0();
    AccelerationSquared(c, t);
    EnergyPowers(Times(a, a), Times(a, d), Times(d, d), t, h,
      Times(c.Acceleration(t), c.Acceleration(t)), 6.0 * Times(d, c.Acceleration(t)));
  }

  lemma EnergyEnds(c: Cubic)
    ensures Energy(c, 0.0) == 0.0 && Energy(c, 1.0) == 12.0 * c.Bending()
  {
    SquareOfDifference(c.Bend0(), c.Bend1());
  }

  // Energy starts at 0, its derivative is the squared acceleration, and over the whole segment it is
  // twelve times the bending.
  lemma BendingIsTheIntegral(c: Cubic, t: real, h: real)
    ensures Energy(c, 0.0) == 0.0 && Energy(c, 1.0) == 12.0 * c.Bending()
    ensures var acceleration, d := c.Acceleration(t), c.Bend1() - c.Bend0();
            Energy(c, t + h) == Energy(c, t) + Times(h, Times(acceleration, acceleration))
                                + Times(h * h, 6.0 * Times(d, acceleration)) + Times(h * h * h, 12.0 * Times(d, d))
  {
    EnergyEnds(c);
    EnergyExpansion(c, t, h);
  }

  lemma SquareOfDifference(a: real, b: real)
    ensures Times(a, b - a) == Times(a, b) - Times(a, a)
    ensures Times(b - a, b - a) == Times(a, a) - 2.0 * Times(a, b) + Times(b, b)
  {
  }

  lemma CompletedSquare(a: real, b: real)
    ensures Times(a, a) + Times(a, b) + Times(b, b) == Times(a + b / 2.0, a + b / 2.0) + 0.75 * Times(b, b)
  {
  }

  lemma BendingIsPositive(c: Cubic)
    ensures 0.0 <= c.Bending()
    ensures c.Bend0() != 0.0 || c.Bend1() != 0.0 ==> 0.0 < c.Bending()
  {
    var a, b := c.Bend0(), c.Bend1();
    CompletedSquare(a, b);
    SquareIsPositive(b);
    SquareIsPositive(a + b / 2.0);
  }

  // ----- piecewise cubics through the knots

  predicate Shape(k: seq<real>, p: seq<real>, q: seq<real>) {
    2 <= |k| && |p| == |q| == |k| - 1
  }

  function Piece(k: seq<real>, p: seq<real>, q: seq<real>, i: nat): Cubic
    requires Shape(k, p, q) && i < |p|
  {
    Cubic(k[i], p[i], q[i], k[i + 1])
  }

  lemma SegmentEnds(c: Cubic)
    ensures c.Value(0.0) == c.k0 && c.Value(1.0) == c.k1
  {
  }

  // Whatever the control values, piece i runs from knot i to knot i + 1.
  lemma PieceJoinsKnots(k: seq<real>, p: seq<real>, q: seq<real>, i: nat)
    requires Shape(k, p, q) && i < |p|
    ensures Piece(k, p, q, i).Value(0.0) == k[i] && Piece(k, p, q, i).Value(1.0) == k[i + 1]
  {
    SegmentEnds(Piece(k, p, q, i));
  }

  // Pieces i and i + 1, which meet in knot i + 1, have one velocity there.
  predicate MeetsSmoothly(k: seq<real>, p: seq<real>, q: seq<real>, i: nat)
    requires Shape(k, p, q) && i + 1 < |p|
  {
    Piece(k, p, q, i).Velocity(1.0) == Piece(k, p, q, i + 1).Velocity(0.0)
  }

  ghost predicate Smooth(k: seq<real>, p: seq<real>, q: seq<real>) {
    Shape(k, p, q) && forall i: nat | i + 1 < |p| :: MeetsSmoothly(k, p, q, i)
  }

  predicate SameAcceleration(k: seq<real>, p: seq<real>, q: seq<real>, i: nat)
    requires Shape(k, p, q) && i + 1 < |p|
  {
    Piece(k, p, q, i).Acceleration(1.0) == Piece(k, p, q, i + 1).Acceleration(0.0)
  }

  // The natural cubic spline: twice continuously differentiable and unbent at both ends.
  ghost predicate Natural(k: seq<real>, p: seq<real>, q: seq<real>) {
    && Smooth(k, p, q)
    && (forall i: nat | i + 1 < |p| :: SameAcceleration(k, p, q, i))
    && Piece(k, p, q, 0).Acceleration(0.0) == 0.0
    && Piece(k, p, q, |p| - 1).Acceleration(1.0) == 0.0
  }

  lemma MeetsSmoothlyMeans(k: seq<real>, p: seq<real>, q: seq<real>, i: nat)
    requires Shape(k, p, q) && i + 1 < |p|
    ensures MeetsSmoothly(k, p, q, i) <==> q[i] + p[i + 1] == 2.0 * k[i + 1]
  {
    var c, d := Piece(k, p, q, i), Piece(k, p, q, i + 1);
    assert c.Velocity(1.0) == 3.0 * (c.k1 - c.q) && d.Velocity(0.0) == 3.0 * (d.p - d.k0);
  }

  // Naturalness as linear equations between neighbouring control values.
  predicate NaturalJoint(k: seq<real>, p: seq<real>, q: seq<real>, i: nat)
    requires Shape(k, p, q) && i + 1 < |p|
  {
    q[i] + p[i + 1] == 2.0 * k[i + 1] && p[i] - 2.0 * q[i] == q[i + 1] - 2.0 * p[i + 1]
  }

  ghost predicate NaturalEquations(k: seq<real>, p: seq<real>, q: seq<real>) {
    && Shape(k, p, q)
    && (forall i: nat | i + 1 < |p| :: NaturalJoint(k, p, q, i))
    && k[0] - 2.0 * p[0] + q[0] == 0.0
    && p[|p| - 1] - 2.0 * q[|p| - 1] + k[|p|] == 0.0
  }

  lemma NaturalMeans(k: seq<real>, p: seq<real>, q: seq<real>)
    ensures Natural(k, p, q) <==> NaturalEquations(k, p, q)
  {
    if Shape(k, p, q) {
      forall i: nat | i + 1 < |p|
        ensures MeetsSmoothly(k, p, q, i) && SameAcceleration(k, p, q, i) <==> NaturalJoint(k, p, q, i)
      {
        MeetsSmoothlyMeans(k, p, q, i);
        var c, d := Piece(k, p, q, i), Piece(k, p, q, i + 1);
        assert c.Acceleration(1.0) == 6.0 * c.Bend1() && d.Acceleration(0.0) == 6.0 * d.Bend0();
      }
      var c, d := Piece(k, p, q, 0), Piece(k, p, q, |p| - 1);
      assert c.Acceleration(0.0) == 6.0 * c.Bend0() && d.Acceleration(1.0) == 6.0 * d.Bend1();
    }
  }

  // ----- the control values computed by the generator

  function RightHandSide(k: seq<real>): (r: seq<real>)
    requires 3 <= |k|
    ensures |r| == |k| - 1
  {
    var n := |k| - 1;
    seq(n, i requires 0 <= i < n =>
      if i == 0 then k[0] + 2.0 * k[1]
      else if i < n - 1 then 4.0 * k[i] + 2.0 * k[i + 1]
      else (8.0 * k[n - 1] + k[n]) / 2.0)
  }

  ghost function First(k: seq<real>): (p: seq<real>)
    requires 2 <= |k|
    ensures |p| == |k| - 1
  {
    if |k| == 2 then [(2.0 * k[0] + k[1]) / 3.0] else Solution(RightHandSide(k))
  }

  ghost function SecondFrom(k: seq<real>, p: seq<real>): (q: seq<real>)
    requires 2 <= |k| && |p| == |k| - 1
    ensures |q| == |k| - 1
  {
    var n := |p|;
    seq(n, i requires 0 <= i < n =>
      if n == 1 then 2.0 * p[0] - k[0]
      else if i < n - 1 then 2.0 * k[i + 1] - p[i + 1]
      else (k[n] + p[n - 1]) / 2.0)
  }

  ghost function Second(k: seq<real>): (q: seq<real>)
    requires 2 <= |k|
    ensures |q| == |k| - 1
  {
    SecondFrom(k, First(k))
  }

  lemma RowIsJoint(k: seq<real>, p: seq<real>, q: seq<real>, i: nat)
    requires Shape(k, p, q) && 2 <= |p| && q == SecondFrom(k, p) && 0 < i < |p|
    ensures Row(p, RightHandSide(k), i) <==> NaturalJoint(k, p, q, i - 1)
  {
  }

  lemma NaturalSolves(k: seq<real>, p: seq<real>, q: seq<real>)
    requires 3 <= |k| && NaturalEquations(k, p, q)
    ensures q == SecondFrom(k, p) && Solves(p, RightHandSide(k))
  {
    forall i: nat | i < |q|
      ensures q[i] == SecondFrom(k, p)[i]
    {
      assert i + 1 < |p| ==> NaturalJoint(k, p, q, i);
    }
    forall i: nat | i < |p|
      ensures Row(p, RightHandSide(k), i)
    {
      if i == 0 {
        assert NaturalJoint(k, p, q, 0);
      } else {
        assert NaturalJoint(k, p, q, i - 1);
        RowIsJoint(k, p, q, i);
      }
    }
  }

  lemma SolutionIsNatural(k: seq<real>, p: seq<real>, q: seq<real>)
    requires Shape(k, p, q) && 3 <= |k| && q == SecondFrom(k, p) && Solves(p, RightHandSide(k))
    ensures NaturalEquations(k, p, q)
  {
    forall i: nat | i + 1 < |p|
      ensures NaturalJoint(k, p, q, i)
    {
      assert Row(p, RightHandSide(k), i + 1);
      RowIsJoint(k, p, q, i + 1);
    }
    assert Row(p, RightHandSide(k), 0);
  }

  // The conditions of a natural spline are the system of the generator.
  lemma NaturalIsSolution(k: seq<real>, p: seq<real>, q: seq<real>)
    requires Shape(k, p, q) && 3 <= |k|
    ensures Natural(k, p, q) <==> Solves(p, RightHandSide(k)) && q == SecondFrom(k, p)
  {
    NaturalMeans(k, p, q);
    if NaturalEquations(k, p, q) {
      NaturalSolves(k, p, q);
    }
    if Solves(p, RightHandSide(k)) && q == SecondFrom(k, p) {
      SolutionIsNatural(k, p, q);
    }
  }

  // The generated control values are those of the natural cubic spline through the knots, and no
  // other control values are.
  lemma GeneratesNaturalSpline(k: seq<real>, p: seq<real>, q: seq<real>)
    requires 2 <= |k|
    ensures Natural(k, p, q) <==> p == First(k) && q == Second(k)
  {
    if |p| == |q| == |k| - 1 {
      if |p| == 1 {
        NaturalMeans(k, p, q);
        assert NaturalEquations(k, p, q) <==> p[0] == First(k)[0] && q[0] == Second(k)[0];
      } else {
        NaturalIsSolution(k, p, q);
        UniqueSolution(p, RightHandSide(k));
      }
    }
  }

  // The same in terms of the linear equations.
  lemma GeneratedEquations(k: seq<real>, p: seq<real>, q: seq<real>)
    requires 2 <= |k|
    ensures NaturalEquations(k, p, q) <==> p == First(k) && q == Second(k)
  {
    NaturalMeans(k, p, q);
    GeneratesNaturalSpline(k, p, q);
  }
}
