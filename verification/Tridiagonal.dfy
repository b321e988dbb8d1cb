// The tridiagonal solver of src/smooth_curve_generator.cpp, over exact reals.
//
// The solver is given only a right-hand side: the matrix is fixed. Its diagonal is 2, 4, ..., 4, 3.5
// and both neighbouring diagonals are 1. `Solves` states the system, `Elimination` solves it by
// recursion, and `CalculateFirstControlPoints` is the in-place algorithm.
module Tridiagonal {

  function Abs(x: real): real {
    if x < 0.0 then -x else x
  }

  // A product behind a name, so that equal factors give equal products by congruence.
  function Times(a: real, b: real): real {
    a * b
  }

  function Diagonal(n: nat, i: nat): real {
    if i == 0 then 2.0 else if i < n - 1 then 4.0 else 3.5
  }

  function At(x: seq<real>, i: int): real {
    if 0 <= i < |x| then x[i] else 0.0
  }

  predicate Row(x: seq<real>, r: seq<real>, i: nat)
    requires i < |x| == |r|
  {
    At(x, i - 1) + Diagonal(|x|, i) * x[i] + At(x, i + 1) == r[i]
  }

  ghost predicate Solves(x: seq<real>, r: seq<real>) {
    |x| == |r| && forall i: nat | i < |x| :: Row(x, r, i)
  }

  // The value `b` is divided by at row i.
  function Pivot(n: nat, i: nat): (b: real)
    ensures 2.0 <= b
  {
    if i == 0 then 2.0 else Diagonal(n, i) - 1.0 / Pivot(n, i - 1)
  }

  function Forward(r: seq<real>, i: nat): real
    requires i < |r|
  {
    if i == 0 then r[0] / Pivot(|r|, 0) else (r[i] - Forward(r, i - 1)) / Pivot(|r|, i)
  }

  function Backward(r: seq<real>, i: nat): real
    requires i < |r|
    decreases |r| - i
  {
    if i == |r| - 1 then Forward(r, i)
    else Forward(r, i) - Times(1.0 / Pivot(|r|, i), Backward(r, i + 1))
  }

  function Elimination(r: seq<real>): (x: seq<real>)
    ensures |x| == |r|
  {
    seq(|r|, i requires 0 <= i < |r| => Backward(r, i))
  }

  // ----- pivots

  // Over the rows 0 .. n-2 the quantity b*b - 4*b + 1 stays negative.
  function PivotDefect(b: real): real {
    b * b - 4.0 * b + 1.0
  }

  lemma DefectStep(b: real)
    requires 2.0 <= b
    ensures PivotDefect(4.0 - 1.0 / b) == PivotDefect(b) / (b * b)
  {
    var t := 1.0 / b;
    assert t * b == 1.0;
    assert PivotDefect(4.0 - t) == t * t - 4.0 * t + 1.0;
    assert (t * t - 4.0 * t + 1.0) * (b * b) == PivotDefect(b) by {
      assert t * t * (b * b) == (t * b) * (t * b) == 1.0;
      assert t * (b * b) == (t * b) * b == b;
    }
  }

  lemma {:induction false} PivotDefectNegative(n: nat, i: nat)
    requires i < n - 1
    ensures PivotDefect(Pivot(n, i)) < 0.0
    ensures Pivot(n, i) < 4.0
  {
    var b := Pivot(n, i);
    if i > 0 {
      PivotDefectNegative(n, i - 1);
      var c := Pivot(n, i - 1);
      DefectStep(c);
      assert c * c > 0.0;
    }
    assert b * (4.0 - b) > 1.0;
  }

  lemma PivotGrows(c: real)
    requires 2.0 <= c && PivotDefect(c) < 0.0
    ensures c < 4.0 - 1.0 / c
  {
    var t := 1.0 / c;
    assert t * c == 1.0;
    assert (4.0 - t - c) * c == -PivotDefect(c);
  }

  lemma LastPivotRange(c: real)
    requires 2.0 <= c < 4.0
    ensures 3.0 <= 3.5 - 1.0 / c < 3.25
  {
    var t := 1.0 / c;
    assert t * c == 1.0;
  }

  // Every pivot is at least 2. Over the rows 0 .. n-2 the pivots strictly increase, and the defect is
  // divided by the square of the previous pivot; the last pivot lies in [3, 3.25).
  lemma PivotRecurrence(n: nat, i: nat)
    requires 2 <= n && i < n
    ensures 2.0 <= Pivot(n, i)
    ensures i < n - 1 ==> PivotDefect(Pivot(n, i)) < 0.0
    ensures 0 < i < n - 1 ==> Pivot(n, i - 1) < Pivot(n, i) < 4.0
    ensures 0 < i < n - 1 ==>
              PivotDefect(Pivot(n, i)) == PivotDefect(Pivot(n, i - 1)) / (Pivot(n, i - 1) * Pivot(n, i - 1))
    ensures i == n - 1 ==> 3.0 <= Pivot(n, i) < 3.25
  {
    if i < n - 1 {
      PivotDefectNegative(n, i);
    }
    if i > 0 {
      PivotDefectNegative(n, i - 1);
      if i < n - 1 {
        DefectStep(Pivot(n, i - 1));
        PivotGrows(Pivot(n, i - 1));
      } else {
        LastPivotRange(Pivot(n, i - 1));
      }
    }
  }

  // ----- the stages of the elimination

  // At row i: `pivots[i]` is `b`, `mul[i]` is `tmp[i]`, `fwd[i]` is `result[i]` after the first pass and
  // `x[i]` after the second.
  ghost predicate Stage(r: seq<real>, pivots: seq<real>, mul: seq<real>, fwd: seq<real>, x: seq<real>, i: nat)
    requires i < |r| == |pivots| == |mul| == |fwd| == |x|
  {
    && 2.0 <= pivots[i]
    && (if i == 0
        then pivots[i] == 2.0 && Times(pivots[i], fwd[i]) == r[i]
        else Times(pivots[i - 1], mul[i]) == 1.0
             && pivots[i] == Diagonal(|r|, i) - mul[i] && Times(pivots[i], fwd[i]) == r[i] - fwd[i - 1])
    && (if i == |r| - 1 then x[i] == fwd[i] else x[i] == fwd[i] - Times(mul[i + 1], x[i + 1]))
  }

  ghost predicate Stages(r: seq<real>, pivots: seq<real>, mul: seq<real>, fwd: seq<real>, x: seq<real>) {
    && |r| == |pivots| == |mul| == |fwd| == |x| > 0
    && forall i: nat | i < |r| :: Stage(r, pivots, mul, fwd, x, i)
  }

  lemma Quotient(b: real, q: real, v: real)
    requires 2.0 <= b
    ensures b * q == v <==> q == v / b
  {
  }

  lemma PivotStep(n: nat, i: nat)
    requires 0 < i
    ensures Times(Pivot(n, i - 1), 1.0 / Pivot(n, i - 1)) == 1.0
    ensures Pivot(n, i) == Diagonal(n, i) - 1.0 / Pivot(n, i - 1)
  {
  }

  lemma ForwardStep(r: seq<real>, i: nat)
    requires i < |r|
    ensures Times(Pivot(|r|, i), Forward(r, i)) == (if i == 0 then r[0] else r[i] - Forward(r, i - 1))
  {
    Quotient(Pivot(|r|, i), Forward(r, i), if i == 0 then r[0] else r[i] - Forward(r, i - 1));
  }

  lemma BackwardStep(r: seq<real>, i: nat)
    requires i < |r| - 1
    ensures Backward(r, i) == Forward(r, i) - Times(1.0 / Pivot(|r|, i), Backward(r, i + 1))
  {
  }

  function Pivots(n: nat): (s: seq<real>)
    ensures |s| == n
    ensures forall i :: 0 <= i < n ==> s[i] == Pivot(n, i)
  {
    seq(n, i requires 0 <= i < n => Pivot(n, i))
  }

  function Multipliers(n: nat): (s: seq<real>)
    ensures |s| == n
    ensures forall i :: 0 < i < n ==> s[i] == 1.0 / Pivot(n, i - 1)
  {
    seq(n, i requires 0 <= i < n => if i == 0 then 0.0 else 1.0 / Pivot(n, i - 1))
  }

  function Forwards(r: seq<real>): (s: seq<real>)
    ensures |s| == |r|
    ensures forall i :: 0 <= i < |r| ==> s[i] == Forward(r, i)
  {
    seq(|r|, i requires 0 <= i < |r| => Forward(r, i))
  }

  lemma EliminationStage(r: seq<real>, i: nat)
    requires i < |r|
    ensures Stage(r, Pivots(|r|), Multipliers(|r|), Forwards(r), Elimination(r), i)
  {
    var n := |r|;
    assert Pivots(n)[i] == Pivot(n, i) && Forwards(r)[i] == Forward(r, i) && Elimination(r)[i] == Backward(r, i);
    ForwardStep(r, i);
    if i > 0 {
      assert Pivots(n)[i - 1] == Pivot(n, i - 1) && Forwards(r)[i - 1] == Forward(r, i - 1);
      PivotStep(n, i);
    }
    if i < n - 1 {
      assert Multipliers(n)[i + 1] == 1.0 / Pivot(n, i) && Elimination(r)[i + 1] == Backward(r, i + 1);
      BackwardStep(r, i);
    }
  }

  lemma EliminationStages(r: seq<real>)
    requires |r| > 0
    ensures Stages(r, Pivots(|r|), Multipliers(|r|), Forwards(r), Elimination(r))
  {
    forall i: nat | i < |r|
      ensures Stage(r, Pivots(|r|), Multipliers(|r|), Forwards(r), Elimination(r), i)
    {
      EliminationStage(r, i);
    }
  }

  lemma EliminationStep(
      prev: real, x: real, next: real, yPrev: real, y: real, r: real, d: real, t: real, b: real, u: real)
    requires prev == yPrev - Times(t, x)
    requires b == d - t && Times(b, y) == r - yPrev
    requires x == y - Times(u, next) && (Times(b, u) == 1.0 || next == 0.0)
    ensures prev + d * x + next == r
  {
    assert b * (u * next) == (b * u) * next == next;
    assert b * x == b * y - b * (u * next);
    assert b * x == d * x - t * x;
  }

  lemma StagesRow(r: seq<real>, pivots: seq<real>, mul: seq<real>, fwd: seq<real>, x: seq<real>, i: nat)
    requires Stages(r, pivots, mul, fwd, x) && i < |r|
    ensures Row(x, r, i)
  {
    assert Stage(r, pivots, mul, fwd, x, i);
    var prev, yPrev, t := 0.0, 0.0, 0.0;
    if i > 0 {
      assert Stage(r, pivots, mul, fwd, x, i - 1);
      prev, yPrev, t := x[i - 1], fwd[i - 1], mul[i];
    }
    var u := 0.0;
    if i < |r| - 1 {
      assert Stage(r, pivots, mul, fwd, x, i + 1);
      u := mul[i + 1];
    }
    EliminationStep(prev, x[i], At(x, i + 1), yPrev, fwd[i], r[i], Diagonal(|r|, i), t, pivots[i], u);
  }

  // Whatever goes through the stages solves the system.
  lemma StagesSolve(r: seq<real>, pivots: seq<real>, mul: seq<real>, fwd: seq<real>, x: seq<real>)
    requires Stages(r, pivots, mul, fwd, x)
    ensures Solves(x, r)
  {
    forall i: nat | i < |r|
      ensures Row(x, r, i)
    {
      StagesRow(r, pivots, mul, fwd, x, i);
    }
  }

  // ----- the system has exactly one solution

  lemma DifferenceVanishes(x: seq<real>, y: seq<real>, r: seq<real>)
    requires Solves(x, r) && Solves(y, r)
    ensures x == y
  {
    var d := seq(|x|, i requires 0 <= i < |x| => x[i] - y[i]);
    var zero := seq(|x|, i requires 0 <= i < |x| => 0.0);
    forall i: nat | i < |d|
      ensures Row(d, zero, i)
    {
      assert Row(x, r, i) && Row(y, r, i);
      assert At(d, i - 1) == At(x, i - 1) - At(y, i - 1) && At(d, i + 1) == At(x, i + 1) - At(y, i + 1);
    }
    DiagonalDominance(d, zero, 0.0);
    forall i: nat | i < |x|
      ensures x[i] == y[i]
    {
      assert Abs(d[i]) <= 0.0;
    }
  }

  lemma EliminationSolves(r: seq<real>)
    ensures Solves(Elimination(r), r)
  {
    if |r| > 0 {
      EliminationStages(r);
      StagesSolve(r, Pivots(|r|), Multipliers(|r|), Forwards(r), Elimination(r));
    }
  }

  // The solution, by what it is rather than by how it is computed.
  ghost function Solution(r: seq<real>): (x: seq<real>)
    ensures |x| == |r|
  {
    EliminationSolves(r);
    var x :| Solves(x, r);
    x
  }

  // The system has exactly one solution for every right-hand side.
  lemma UniqueSolution(x: seq<real>, r: seq<real>)
    ensures Solves(x, r) <==> x == Solution(r)
  {
    EliminationSolves(r);
    if Solves(x, r) {
      DifferenceVanishes(x, Solution(r), r);
    }
  }

  // It is the result of the elimination.
  lemma SolutionIsElimination(r: seq<real>)
    ensures Solution(r) == Elimination(r)
  {
    EliminationSolves(r);
    UniqueSolution(Elimination(r), r);
  }

  // The stages of a right-hand side, without their definitions.
  lemma StagesExist(r: seq<real>) returns (pivots: seq<real>, mul: seq<real>, fwd: seq<real>, x: seq<real>)
    requires |r| > 0
    ensures Stages(r, pivots, mul, fwd, x) && Solves(x, r)
  {
    pivots, mul, fwd, x := Pivots(|r|), Multipliers(|r|), Forwards(r), Elimination(r);
    EliminationStages(r);
    StagesSolve(r, pivots, mul, fwd, x);
  }

  // One stage in the form in which the algorithm computes it.
  lemma StageDivided(r: seq<real>, pivots: seq<real>, mul: seq<real>, fwd: seq<real>, x: seq<real>, i: nat)
    requires Stages(r, pivots, mul, fwd, x) && i < |r|
    ensures 2.0 <= pivots[i]
    ensures i == 0 ==> pivots[0] == 2.0 && fwd[0] == r[0] / 2.0
    ensures 0 < i ==> 2.0 <= pivots[i - 1] && mul[i] == 1.0 / pivots[i - 1]
    ensures 0 < i ==> pivots[i] == Diagonal(|r|, i) - mul[i] && fwd[i] == (r[i] - fwd[i - 1]) / pivots[i]
    ensures i == |r| - 1 ==> x[i] == fwd[i]
    ensures 0 < i ==> x[i - 1] == fwd[i - 1] - Times(mul[i], x[i])
  {
    assert Stage(r, pivots, mul, fwd, x, i);
    if i > 0 {
      assert Stage(r, pivots, mul, fwd, x, i - 1);
      Quotient(pivots[i - 1], mul[i], 1.0);
      Quotient(pivots[i], fwd[i], r[i] - fwd[i - 1]);
    }
  }

  // The two in-place passes. `tmp` starts with arbitrary contents and `tmp[0]` is never assigned, so
  // the contract also says that nothing depends on it. `result` and `rhs` may even be the same array.
  method CalculateFirstControlPoints(result: array<real>, rhs: array<real>, n: nat)
    requires 1 <= n == result.Length == rhs.Length
    modifies result
    ensures Solves(result[..], old(rhs[..]))
  {
    ghost var r := rhs[..];
    ghost var pivots, mul, fwd, x := StagesExist(r);
    var tmp := new real[n];
    var b := 2.0;
    StageDivided(r, pivots, mul, fwd, x, 0);
    result[0] := rhs[0] / b;

    // Decomposition and forward substitution.
    for i := 1 to n
      invariant b == pivots[i - 1]
      invariant forall k :: 1 <= k < i ==> tmp[k] == mul[k]
      invariant forall k :: 0 <= k < i ==> result[k] == fwd[k]
      invariant forall k :: i <= k < n ==> rhs[k] == r[k]
    {
      StageDivided(r, pivots, mul, fwd, x, i);
      tmp[i] := 1.0 / b;
      b := (if i < n - 1 then 4.0 else 3.5) - tmp[i];
      result[i] := (rhs[i] - result[i - 1]) / b;
    }

    // Back substitution.
    StageDivided(r, pivots, mul, fwd, x, n - 1);
    for i := 1 to n
      invariant forall k :: 1 <= k < n ==> tmp[k] == mul[k]
      invariant forall k :: 0 <= k < n - i ==> result[k] == fwd[k]
      invariant forall k :: n - i <= k < n ==> result[k] == x[k]
    {
      StageDivided(r, pivots, mul, fwd, x, n - i);
      result[n - i - 1] := result[n - i - 1] - Times(tmp[n - i], result[n - i]);
    }

    assert result[..] == x;
  }

  // ----- size and decay of solutions

  lemma {:induction false} LargestEntry(x: seq<real>, m: nat) returns (k: nat)
    requires 0 < m <= |x|
    ensures k < m
    ensures forall i :: 0 <= i < m ==> Abs(x[i]) <= Abs(x[k])
  {
    k := 0;
    if m > 1 {
      k := LargestEntry(x, m - 1);
      if Abs(x[k]) < Abs(x[m - 1]) {
        k := m - 1;
      }
    }
  }

  // Diagonal dominance: the margin by which the diagonal of row i exceeds its neighbours.
  function Margin(n: nat, i: nat): real {
    if i == 0 then 1.0 else if i < n - 1 then 2.0 else 2.5
  }

  lemma DiagonalDominance(x: seq<real>, r: seq<real>, bound: real)
    requires Solves(x, r)
    requires forall i: nat | i < |r| :: Abs(r[i]) <= Margin(|r|, i) * bound
    ensures forall i: nat | i < |x| :: Abs(x[i]) <= bound
  {
    if |x| > 0 {
      var k: int := LargestEntry(x, |x|);
      assert Row(x, r, k);
      assert Abs(At(x, k - 1)) <= Abs(x[k]) && Abs(At(x, k + 1)) <= Abs(x[k]);
      assert Abs(r[k]) <= Margin(|r|, k) * bound;
      assert Abs(x[k]) <= bound;
    }
  }

  // b has the opposite sign of a (or both vanish) and is at least f times as large.
  predicate Opposes(a: real, b: real, f: real) {
    && (0.0 <= a ==> b <= -(f * a))
    && (a <= 0.0 ==> -(f * a) <= b)
  }

  // Above the first disturbed row m a solution alternates in sign and at least doubles towards m,
  // growing by 3.5 from the second row on.
  lemma {:induction false} DecayTowardsTop(x: seq<real>, r: seq<real>, m: nat, i: nat)
    requires Solves(x, r) && i < m < |r|
    requires forall k: nat | k < m :: r[k] == 0.0
    ensures Opposes(x[i], x[i + 1], 2.0)
    ensures 0 < i ==> Opposes(x[i], x[i + 1], 3.5)
  {
    assert Row(x, r, i);
    if i > 0 {
      DecayTowardsTop(x, r, m, i - 1);
    }
  }

  // Below the last disturbed row m it alternates in sign and shrinks by at least 3.5 in every row.
  lemma {:induction false} DecayTowardsBottom(x: seq<real>, r: seq<real>, m: nat, i: nat)
    requires Solves(x, r) && m <= i < |r| - 1
    requires forall k: nat | m < k < |r| :: r[k] == 0.0
    ensures Opposes(x[i + 1], x[i], 3.5)
    decreases |r| - i
  {
    assert Row(x, r, i + 1);
    if i + 1 < |r| - 1 {
      DecayTowardsBottom(x, r, m, i + 1);
    }
  }
}
