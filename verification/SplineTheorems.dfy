// Consequences of the generated curve being the natural cubic spline: symmetry, straightness,
// bounded overshoot, locality and least bending.
module SplineTheorems {
  import opened Tridiagonal
  import opened Spline

  // ----- reversal

  function Reversed(s: seq<real>): (r: seq<real>)
    ensures |r| == |s|
    ensures forall i :: 0 <= i < |s| ==> r[i] == s[|s| - 1 - i]
  {
    seq(|s|, i requires 0 <= i < |s| => s[|s| - 1 - i])
  }

  lemma ReversedEquations(k: seq<real>, p: seq<real>, q: seq<real>)
    requires NaturalEquations(k, p, q)
    ensures NaturalEquations(Reversed(k), Reversed(q), Reversed(p))
  {
    forall i: nat | i + 1 < |p|
      ensures NaturalJoint(Reversed(k), Reversed(q), Reversed(p), i)
    {
      assert NaturalJoint(k, p, q, |p| - 2 - i);
    }
  }

  // Running through the knots backwards swaps the roles of the control points and reverses them.
  lemma ReversalSymmetry(k: seq<real>)
    requires 2 <= |k|
    ensures First(Reversed(k)) == Reversed(Second(k))
    ensures Second(Reversed(k)) == Reversed(First(k))
  {
    GeneratedEquations(k, First(k), Second(k));
    ReversedEquations(k, First(k), Second(k));
    GeneratedEquations(Reversed(k), Reversed(Second(k)), Reversed(First(k)));
  }

  // ----- straightness

  function Progression(a: real, c: real, start: real, n: nat): (s: seq<real>)
    ensures |s| == n
  {
    seq(n, i requires 0 <= i < n => a + Times(c, i as real + start))
  }

  // Knots in arithmetic progression have their control values at one and two thirds of every step.
  lemma ProgressionIsStraight(a: real, c: real, n: nat)
    requires 2 <= n
    ensures First(Progression(a, c, 0.0, n)) == Progression(a, c, 1.0 / 3.0, n - 1)
    ensures Second(Progression(a, c, 0.0, n)) == Progression(a, c, 2.0 / 3.0, n - 1)
  {
    var k := Progression(a, c, 0.0, n);
    var p, q := Progression(a, c, 1.0 / 3.0, n - 1), Progression(a, c, 2.0 / 3.0, n - 1);
    forall i: nat | i < n - 1
      ensures p[i] == k[i] + c / 3.0 && q[i] == k[i] + 2.0 * c / 3.0 && k[i + 1] == k[i] + c
    {
    }
    forall i: nat | i + 1 < |p|
      ensures NaturalJoint(k, p, q, i)
    {
    }
    NaturalMeans(k, p, q);
    GeneratesNaturalSpline(k, p, q);
  }

  lemma FlatPolynomial(c1: real, c2: real, c3: real, t: real)
    requires c2 == 0.0 == c3
    ensures Polynomial(c1, c2, c3, t) == Times(c1, t)
  {
  }

  // On a straight segment the coordinate is linear in the parameter.
  lemma StraightSegment(s: Cubic, x: real, c: real, t: real)
    requires s == Cubic(x, x + c / 3.0, x + 2.0 * c / 3.0, x + c)
    ensures s.Value(t) == x + Times(c, t)
  {
    PowerBasis(s, t);
    FlatPolynomial(3.0 * (s.p - s.k0), 3.0 * s.Bend0(), s.Bend1() - s.Bend0(), t);
    assert 3.0 * (s.p - s.k0) == c;
  }

  // ----- differences and translations

  function Difference(a: seq<real>, b: seq<real>): (d: seq<real>)
    requires |a| == |b|
    ensures |d| == |a|
    ensures forall i :: 0 <= i < |a| ==> d[i] == a[i] - b[i]
  {
    seq(|a|, i requires 0 <= i < |a| => a[i] - b[i])
  }

  lemma DifferenceIsNatural(
      k: seq<real>, p: seq<real>, q: seq<real>, l: seq<real>, p': seq<real>, q': seq<real>)
    requires |k| == |l| && NaturalEquations(k, p, q) && NaturalEquations(l, p', q')
    ensures NaturalEquations(Difference(k, l), Difference(p, p'), Difference(q, q'))
  {
    forall i: nat | i + 1 < |p|
      ensures NaturalJoint(Difference(k, l), Difference(p, p'), Difference(q, q'), i)
    {
      assert NaturalJoint(k, p, q, i) && NaturalJoint(l, p', q', i);
    }
  }

  // The control values of a difference of knots are the differences of the control values.
  lemma GeneratorIsAdditive(k: seq<real>, l: seq<real>)
    requires 2 <= |k| == |l|
    ensures First(Difference(k, l)) == Difference(First(k), First(l))
    ensures Second(Difference(k, l)) == Difference(Second(k), Second(l))
  {
    GeneratedEquations(k, First(k), Second(k));
    GeneratedEquations(l, First(l), Second(l));
    DifferenceIsNatural(k, First(k), Second(k), l, First(l), Second(l));
    GeneratedEquations(Difference(k, l), Difference(First(k), First(l)), Difference(Second(k), Second(l)));
  }

  // ----- bounded overshoot

  ghost predicate Within(s: seq<real>, lo: real, hi: real) {
    forall i: nat | i < |s| :: lo <= s[i] <= hi
  }

  // Knots within [-m, m] keep the first control values within [-3m, 3m].
  lemma CentredBound(k: seq<real>, m: real)
    requires 2 <= |k| && Within(k, -m, m)
    ensures Within(First(k), -(3.0 * m), 3.0 * m)
  {
    if |k| > 2 {
      var r := RightHandSide(k);
      UniqueSolution(First(k), r);
      forall i: nat | i < |r|
        ensures Abs(r[i]) <= Margin(|r|, i) * (3.0 * m)
      {
      }
      DiagonalDominance(First(k), r, 3.0 * m);
      forall i: nat | i < |First(k)|
        ensures -(3.0 * m) <= First(k)[i] <= 3.0 * m
      {
        assert Abs(First(k)[i]) <= 3.0 * m;
      }
    }
  }

  function Constant(x: real, n: nat): (s: seq<real>)
    ensures |s| == n
    ensures forall i :: 0 <= i < n ==> s[i] == x
  {
    seq(n, _ => x)
  }

  lemma ConstantIsStraight(x: real, n: nat)
    requires 2 <= n
    ensures First(Constant(x, n)) == Constant(x, n - 1)
  {
    GeneratedEquations(Constant(x, n), Constant(x, n - 1), Constant(x, n - 1));
  }

  // Moving all knots by the same amount moves the control values by it.
  lemma FirstTranslates(k: seq<real>, x: real, i: nat)
    requires 2 <= |k| && i < |k| - 1
    ensures First(Difference(k, Constant(x, |k|)))[i] == First(k)[i] - x
  {
    GeneratorIsAdditive(k, Constant(x, |k|));
    ConstantIsStraight(x, |k|);
  }

  lemma FirstOvershoot(k: seq<real>, lo: real, hi: real)
    requires 2 <= |k| && Within(k, lo, hi)
    ensures Within(First(k), lo - (hi - lo), hi + (hi - lo))
  {
    var mid, m := (lo + hi) / 2.0, (hi - lo) / 2.0;
    var d := Difference(k, Constant(mid, |k|));
    CentredBound(d, m);
    forall i: nat | i < |First(k)|
      ensures lo - (hi - lo) <= First(k)[i] <= hi + (hi - lo)
    {
      FirstTranslates(k, mid, i);
      assert -(3.0 * m) <= First(d)[i] <= 3.0 * m;
    }
  }

  // Knots in [lo, hi] give control values at most hi - lo outside [lo, hi].
  lemma BoundedOvershoot(k: seq<real>, lo: real, hi: real)
    requires 2 <= |k| && Within(k, lo, hi)
    ensures Within(First(k), lo - (hi - lo), hi + (hi - lo))
    ensures Within(Second(k), lo - (hi - lo), hi + (hi - lo))
  {
    FirstOvershoot(k, lo, hi);
    ReversalSymmetry(k);
    FirstOvershoot(Reversed(k), lo, hi);
    forall i: nat | i < |Second(k)|
      ensures lo - (hi - lo) <= Second(k)[i] <= hi + (hi - lo)
    {
      assert Second(k)[i] == First(Reversed(k))[|k| - 2 - i];
    }
  }

  // The curve itself leaves [lo, hi] by at most three quarters of hi - lo.
  lemma CurveOvershoot(c: Cubic, lo: real, hi: real, t: real)
    requires lo <= c.k0 <= hi && lo <= c.k1 <= hi && 0.0 <= t <= 1.0
    requires lo - (hi - lo) <= c.p <= hi + (hi - lo) && lo - (hi - lo) <= c.q <= hi + (hi - lo)
    ensures lo - 0.75 * (hi - lo) <= c.Value(t) <= hi + 0.75 * (hi - lo)
  {
    BernsteinWeights(t);
    WeightedMean(Weight(0, t), Weight(1, t), Weight(2, t), Weight(3, t), c, lo, hi);
  }

  lemma Nonnegative(a: real, b: real)
    requires 0.0 <= a && 0.0 <= b
    ensures 0.0 <= a * b
  {
  }

  lemma TermBounds(a: real, lo: real, x: real, hi: real)
    requires 0.0 <= a && lo <= x <= hi
    ensures Times(a, lo) <= Times(a, x) <= Times(a, hi)
  {
  }

  lemma SumOfWeights(a0: real, a1: real, a2: real, a3: real, x: real)
    requires a0 + a1 + a2 + a3 == 1.0
    ensures Times(a0, x) + Times(a1, x) + Times(a2, x) + Times(a3, x) == x
  {
    assert (a0 + a1 + a2 + a3) * x == x;
  }

  lemma InnerWeights(a1: real, a2: real, x: real, d: real)
    requires a1 + a2 <= 0.75 && 0.0 <= d
    ensures Times(a1, x - d) + Times(a2, x - d) >= Times(a1, x) + Times(a2, x) - 0.75 * d
    ensures Times(a1, x + d) + Times(a2, x + d) <= Times(a1, x) + Times(a2, x) + 0.75 * d
  {
    Nonnegative(0.75 - (a1 + a2), d);
    Distributes(a1, x, d);
    Distributes(a2, x, d);
    assert (0.75 - (a1 + a2)) * d == 0.75 * d - Times(a1, d) - Times(a2, d);
  }

  lemma Distributes(a: real, x: real, d: real)
    ensures Times(a, x - d) == Times(a, x) - Times(a, d)
    ensures Times(a, x + d) == Times(a, x) + Times(a, d)
  {
  }

  lemma WeightedMean(a0: real, a1: real, a2: real, a3: real, c: Cubic, lo: real, hi: real)
    requires lo <= c.k0 <= hi && lo <= c.k1 <= hi
    requires lo - (hi - lo) <= c.p <= hi + (hi - lo) && lo - (hi - lo) <= c.q <= hi + (hi - lo)
    requires 0.0 <= a0 && 0.0 <= a1 && 0.0 <= a2 && 0.0 <= a3 && a0 + a1 + a2 + a3 == 1.0 && a1 + a2 <= 0.75
    ensures var mean := Times(a0, c.k0) + Times(a1, c.p) + Times(a2, c.q) + Times(a3, c.k1);
            lo - 0.75 * (hi - lo) <= mean <= hi + 0.75 * (hi - lo)
  {
    var d := hi - lo;
    TermBounds(a0, lo, c.k0, hi);
    TermBounds(a1, lo - d, c.p, hi + d);
    TermBounds(a2, lo - d, c.q, hi + d);
    TermBounds(a3, lo, c.k1, hi);
    InnerWeights(a1, a2, lo, d);
    InnerWeights(a1, a2, hi, d);
    SumOfWeights(a0, a1, a2, a3, lo);
    SumOfWeights(a0, a1, a2, a3, hi);
  }

  lemma BernsteinWeights(t: real)
    requires 0.0 <= t <= 1.0
    ensures 0.0 <= Weight(0, t) && 0.0 <= Weight(1, t) && 0.0 <= Weight(2, t) && 0.0 <= Weight(3, t)
    ensures Weight(0, t) + Weight(1, t) + Weight(2, t) + Weight(3, t) == 1.0
    ensures Weight(1, t) + Weight(2, t) <= 0.75
  {
    var s := 1.0 - t;
    Nonnegative(s, s);
    Nonnegative(s, t);
    Nonnegative(t, t);
    Nonnegative(s * s, s);
    Nonnegative(s * s, t);
    Nonnegative(s * t, t);
    Nonnegative(t * t, t);
    SquareIsPositive(t - 0.5);
    assert Times(t - 0.5, t - 0.5) == (t - 0.5) * (t - 0.5);
    assert s * s * t + s * t * t == s * t == 0.25 - (t - 0.5) * (t - 0.5);
  }

  // ----- locality

  function Pow2(k: nat): (r: real)
    ensures 1.0 <= r
  {
    if k == 0 then 1.0 else 2.0 * Pow2(k - 1)
  }

  // The distance of segment i from the segments j - 1 and j that meet in knot j.
  function Distance(i: int, j: int): nat {
    if i < j - 1 then j - 1 - i else if i > j then i - j else 0
  }

  function Impulse(n: nat, j: nat, d: real): (s: seq<real>)
    ensures |s| == n
  {
    seq(n, i requires 0 <= i < n => if i == j then d else 0.0)
  }

  lemma ImpulseRows(n: nat, j: nat, d: real)
    requires 3 <= n && j < n
    ensures var r := RightHandSide(Impulse(n, j, d));
            (forall i: nat | i < |r| :: Abs(r[i]) <= Margin(|r|, i) * (2.0 * Abs(d)))
            && (forall i: nat | i < |r| && (i < j - 1 || j < i) :: r[i] == 0.0)
  {
  }

  lemma {:induction false} ImpulseLeft(e: seq<real>, r: seq<real>, j: nat, bound: real, i: nat)
    requires Solves(e, r) && i <= j - 1 < |r|
    requires forall k: nat | k < j - 1 :: r[k] == 0.0
    requires forall k: nat | k < |e| :: Abs(e[k]) <= bound
    ensures Times(Abs(e[i]), Pow2(j - 1 - i)) <= bound
    decreases j - i
  {
    if i < j - 1 {
      DecayTowardsTop(e, r, j - 1, i);
      ImpulseLeft(e, r, j, bound, i + 1);
      HalvingStep(e[i], e[i + 1], Pow2(j - 1 - (i + 1)));
    }
  }

  lemma {:induction false} ImpulseRight(e: seq<real>, r: seq<real>, j: nat, bound: real, i: nat)
    requires Solves(e, r) && j <= i < |r|
    requires forall k: nat | j < k < |r| :: r[k] == 0.0
    requires forall k: nat | k < |e| :: Abs(e[k]) <= bound
    ensures Times(Abs(e[i]), Pow2(i - j)) <= bound
  {
    if j < i {
      DecayTowardsBottom(e, r, j, i - 1);
      ImpulseRight(e, r, j, bound, i - 1);
      HalvingStep(e[i], e[i - 1], Pow2(i - 1 - j));
    }
  }

  lemma HalvingStep(a: real, b: real, w: real)
    requires 2.0 * Abs(a) <= Abs(b) && 0.0 <= w
    ensures Times(Abs(a), 2.0 * w) <= Times(Abs(b), w)
  {
    Nonnegative(w, Abs(b) - 2.0 * Abs(a));
  }

  lemma ImpulseResponse(n: nat, j: nat, d: real, i: nat)
    requires 2 <= n && j < n && i < n - 1
    ensures Times(Abs(First(Impulse(n, j, d))[i]), Pow2(Distance(i, j))) <= 2.0 * Abs(d)
  {
    var e := First(Impulse(n, j, d));
    if n > 2 {
      var r := RightHandSide(Impulse(n, j, d));
      UniqueSolution(e, r);
      ImpulseRows(n, j, d);
      DiagonalDominance(e, r, 2.0 * Abs(d));
      if i <= j - 1 {
        ImpulseLeft(e, r, j, 2.0 * Abs(d), i);
      } else {
        ImpulseRight(e, r, j, 2.0 * Abs(d), i);
      }
    }
  }

  function Moved(k: seq<real>, j: nat, d: real): seq<real>
    requires j < |k|
  {
    k[j := k[j] + d]
  }

  // By how much first control value i moves when knot j moves by d.
  ghost function Movement(k: seq<real>, j: nat, d: real, i: nat): real
    requires 2 <= |k| && j < |k| && i < |k| - 1
  {
    First(Moved(k, j, d))[i] - First(k)[i]
  }

  lemma MovementIsResponse(k: seq<real>, j: nat, d: real, i: nat)
    requires 2 <= |k| && j < |k| && i < |k| - 1
    ensures Movement(k, j, d, i) == First(Impulse(|k|, j, d))[i]
  {
    GeneratorIsAdditive(Moved(k, j, d), k);
    assert Difference(Moved(k, j, d), k) == Impulse(|k|, j, d);
  }

  // Moving knot j by d moves first control value i by at most 2|d| / 2^distance.
  lemma FirstLocality(k: seq<real>, j: nat, d: real, i: nat)
    requires 2 <= |k| && j < |k| && i < |k| - 1
    ensures Times(Abs(Movement(k, j, d, i)), Pow2(Distance(i, j))) <= 2.0 * Abs(d)
  {
    MovementIsResponse(k, j, d, i);
    ImpulseResponse(|k|, j, d, i);
  }

  // Outside the values j - 1 and j the movements alternate in sign. They grow towards knot j by at
  // least 2 from the left (3.5 from the second value on) and by at least 3.5 from the right.
  lemma MovementsAlternate(k: seq<real>, j: nat, d: real, i: nat)
    requires 2 <= |k| && j < |k| && i < |k| - 1
    ensures i < j - 1 ==> Opposes(Movement(k, j, d, i), Movement(k, j, d, i + 1), 2.0)
    ensures 0 < i < j - 1 ==> Opposes(Movement(k, j, d, i), Movement(k, j, d, i + 1), 3.5)
    ensures j < i ==> Opposes(Movement(k, j, d, i), Movement(k, j, d, i - 1), 3.5)
  {
    MovementIsResponse(k, j, d, i);
    if |k| > 2 {
      var e, r := First(Impulse(|k|, j, d)), RightHandSide(Impulse(|k|, j, d));
      UniqueSolution(e, r);
      ImpulseRows(|k|, j, d);
      if i < j - 1 {
        MovementIsResponse(k, j, d, i + 1);
        DecayTowardsTop(e, r, j - 1, i);
      } else if j < i {
        MovementIsResponse(k, j, d, i - 1);
        DecayTowardsBottom(e, r, j, i - 1);
      }
    }
  }

  lemma SecondIsFirstReversed(k: seq<real>, i: nat)
    requires 2 <= |k| && i < |k| - 1
    ensures Second(k)[i] == First(Reversed(k))[|k| - 2 - i]
  {
    ReversalSymmetry(k);
  }

  // The same bound for the second control values, by reversal.
  lemma SecondLocality(k: seq<real>, j: nat, d: real, i: nat)
    requires 2 <= |k| && j < |k| && i < |k| - 1
    ensures Times(Abs(Second(Moved(k, j, d))[i] - Second(k)[i]), Pow2(Distance(i, j))) <= 2.0 * Abs(d)
  {
    var n := |k|;
    SecondIsFirstReversed(k, i);
    SecondIsFirstReversed(Moved(k, j, d), i);
    assert Reversed(Moved(k, j, d)) == Moved(Reversed(k), n - 1 - j, d);
    FirstLocality(Reversed(k), n - 1 - j, d, n - 2 - i);
    assert Distance(n - 2 - i, n - 1 - j) == Distance(i, j);
    assert Movement(Reversed(k), n - 1 - j, d, n - 2 - i) == Second(Moved(k, j, d))[i] - Second(k)[i];
  }

  // ----- least bending

  function Bends(k: seq<real>, p: seq<real>, q: seq<real>): (b: seq<real>)
    requires Shape(k, p, q)
    ensures |b| == |p|
  {
    seq(|p|, i requires 0 <= i < |p| => Piece(k, p, q, i).Bending())
  }

  function Sum(s: seq<real>, m: nat): real
    requires m <= |s|
  {
    if m == 0 then 0.0 else Sum(s, m - 1) + s[m - 1]
  }

  // The bending of the whole curve.
  function Bending(k: seq<real>, p: seq<real>, q: seq<real>): real
    requires Shape(k, p, q)
  {
    Sum(Bends(k, p, q), |p|)
  }

  lemma {:induction false} SumOfNonnegative(s: seq<real>, m: nat, i: nat)
    requires m <= |s| && forall j :: 0 <= j < |s| ==> 0.0 <= s[j]
    ensures 0.0 <= Sum(s, m)
    ensures i < m && 0.0 < s[i] ==> 0.0 < Sum(s, m)
  {
    if m > 0 {
      SumOfNonnegative(s, m - 1, i);
    }
  }

  // Bending of a sum of two segments with the same ends: the cross term is linear in p and q.
  lemma CrossTerm(c: Cubic, e: Cubic)
    requires e.k0 == 0.0 == e.k1
    ensures Cubic(c.k0, c.p + e.p, c.q + e.q, c.k1).Bending()
            == c.Bending() + e.Bending() - 3.0 * (Times(c.Bend0(), e.p) + Times(c.Bend1(), e.q))
  {
    var a, b, a', b' := c.Bend0(), c.Bend1(), e.Bend0(), e.Bend1();
    var f := Cubic(c.k0, c.p + e.p, c.q + e.q, c.k1);
    assert f.Bend0() == a + a' && f.Bend1() == b + b';
    assert 2.0 * a' + b' == -3.0 * e.p && a' + 2.0 * b' == -3.0 * e.q;
    assert a * (2.0 * a' + b') == -3.0 * Times(a, e.p);
    assert b * (a' + 2.0 * b') == -3.0 * Times(b, e.q);
  }

  // What segment i of a rival curve bends more than segment i of the curve and of the deviation.
  function Cross(k: seq<real>, p: seq<real>, q: seq<real>, p': seq<real>, q': seq<real>, i: nat): real
    requires Shape(k, p, q) && Shape(k, p', q') && i < |p|
  {
    Bends(k, p', q')[i] - Bends(k, p, q)[i]
    - Bends(Impulse(|k|, 0, 0.0), Difference(p', p), Difference(q', q))[i]
  }

  // The two ends of the cross term of segment i.
  function StartTerm(k: seq<real>, p: seq<real>, q: seq<real>, p': seq<real>, i: nat): real
    requires Shape(k, p, q) && |p'| == |p| && i < |p|
  {
    Times(Piece(k, p, q, i).Bend0(), p'[i] - p[i])
  }

  function EndTerm(k: seq<real>, p: seq<real>, q: seq<real>, q': seq<real>, i: nat): real
    requires Shape(k, p, q) && |q'| == |q| && i < |q|
  {
    Times(Piece(k, p, q, i).Bend1(), q'[i] - q[i])
  }

  lemma CrossOfSegment(k: seq<real>, p: seq<real>, q: seq<real>, p': seq<real>, q': seq<real>, i: nat)
    requires Shape(k, p, q) && Shape(k, p', q') && i < |p|
    ensures Cross(k, p, q, p', q', i) == -3.0 * (StartTerm(k, p, q, p', i) + EndTerm(k, p, q, q', i))
  {
    var c, e := Piece(k, p, q, i), Piece(Impulse(|k|, 0, 0.0), Difference(p', p), Difference(q', q), i);
    CrossTerm(c, e);
    assert Piece(k, p', q', i) == Cubic(c.k0, c.p + e.p, c.q + e.q, c.k1);
  }

  lemma JointCancels(k: seq<real>, p: seq<real>, q: seq<real>, p': seq<real>, q': seq<real>, i: nat)
    requires Natural(k, p, q) && Smooth(k, p', q') && i + 1 < |p|
    ensures StartTerm(k, p, q, p', i + 1) == -EndTerm(k, p, q, q', i)
  {
    NaturalMeans(k, p, q);
    assert NaturalJoint(k, p, q, i) && MeetsSmoothly(k, p', q', i);
    MeetsSmoothlyMeans(k, p', q', i);
    NegatedFactor(Piece(k, p, q, i).Bend1(), q'[i] - q[i]);
  }

  lemma StartIsUnbent(k: seq<real>, p: seq<real>, q: seq<real>, p': seq<real>)
    requires Natural(k, p, q) && |p'| == |p|
    ensures StartTerm(k, p, q, p', 0) == 0.0
  {
    NaturalMeans(k, p, q);
    UnbentEnd(Piece(k, p, q, 0).Bend0(), p'[0] - p[0]);
  }

  lemma NegatedFactor(a: real, b: real)
    ensures Times(a, -b) == -Times(a, b)
  {
  }

  // A sum grows by its next element.
  lemma SumStep(s: seq<real>, m: nat)
    requires 0 < m <= |s|
    ensures Sum(s, m) == Sum(s, m - 1) + s[m - 1]
  {
  }

  // The cross terms telescope: after m segments only the last joint is left over.
  lemma {:induction false} CrossTermsTelescope(
      k: seq<real>, p: seq<real>, q: seq<real>, p': seq<real>, q': seq<real>, m: nat)
    requires Natural(k, p, q) && Smooth(k, p', q') && 0 < m <= |p|
    ensures Sum(Bends(k, p', q'), m)
            == Sum(Bends(k, p, q), m)
               + Sum(Bends(Impulse(|k|, 0, 0.0), Difference(p', p), Difference(q', q)), m)
               - 3.0 * EndTerm(k, p, q, q', m - 1)
  {
    SumStep(Bends(k, p', q'), m);
    SumStep(Bends(k, p, q), m);
    SumStep(Bends(Impulse(|k|, 0, 0.0), Difference(p', p), Difference(q', q)), m);
    CrossOfSegment(k, p, q, p', q', m - 1);
    if m == 1 {
      StartIsUnbent(k, p, q, p');
    } else {
      CrossTermsTelescope(k, p, q, p', q', m - 1);
      JointCancels(k, p, q, p', q', m - 2);
    }
  }

  lemma UnbentEnd(a: real, d: real)
    requires a == 0.0
    ensures Times(a, d) == 0.0
  {
  }

  // Any smooth piecewise cubic through the knots bends by as much as the generated one plus the
  // bending of its deviation from it.
  lemma BendingAddsUp(k: seq<real>, p: seq<real>, q: seq<real>)
    requires Smooth(k, p, q)
    ensures Bending(k, p, q)
            == Bending(k, First(k), Second(k))
               + Bending(Impulse(|k|, 0, 0.0), Difference(p, First(k)), Difference(q, Second(k)))
  {
    var n := |p|;
    GeneratesNaturalSpline(k, First(k), Second(k));
    NaturalMeans(k, First(k), Second(k));
    CrossTermsTelescope(k, First(k), Second(k), p, q, n);
    UnbentEnd(Piece(k, First(k), Second(k), n - 1).Bend1(), q[n - 1] - Second(k)[n - 1]);
  }

  lemma DeviationBends(k: seq<real>, p: seq<real>, q: seq<real>, i: nat)
    requires Shape(k, p, q) && i < |p|
    requires forall j :: 0 <= j < |k| ==> k[j] == 0.0
    ensures 0.0 <= Bends(k, p, q)[i]
    ensures p[i] != 0.0 || q[i] != 0.0 ==> 0.0 < Bends(k, p, q)[i]
  {
    BendingIsPositive(Piece(k, p, q, i));
  }

  lemma DeviationIsPositive(p: seq<real>, q: seq<real>, p0: seq<real>, q0: seq<real>, n: nat)
    requires |p| == |q| == |p0| == |q0| == n > 0
    ensures var b := Bending(Impulse(n + 1, 0, 0.0), Difference(p, p0), Difference(q, q0));
            0.0 <= b && (p != p0 || q != q0 ==> 0.0 < b)
  {
    var zero, dp, dq := Impulse(n + 1, 0, 0.0), Difference(p, p0), Difference(q, q0);
    forall i: nat | i < n
      ensures 0.0 <= Bends(zero, dp, dq)[i]
    {
      DeviationBends(zero, dp, dq, i);
    }
    SumOfNonnegative(Bends(zero, dp, dq), n, 0);
    if p != p0 || q != q0 {
      var i :| 0 <= i < n && (p[i] != p0[i] || q[i] != q0[i]);
      DeviationBends(zero, dp, dq, i);
      SumOfNonnegative(Bends(zero, dp, dq), n, i);
    }
  }

  // Among all smooth piecewise cubics through the knots the generated one bends least, and every other
  // one bends strictly more.
  lemma LeastBending(k: seq<real>, p: seq<real>, q: seq<real>)
    requires Smooth(k, p, q)
    ensures Bending(k, First(k), Second(k)) <= Bending(k, p, q)
    ensures Bending(k, First(k), Second(k)) == Bending(k, p, q) <==> p == First(k) && q == Second(k)
  {
    BendingAddsUp(k, p, q);
    DeviationIsPositive(p, q, First(k), Second(k), |p|);
  }
}
