/**
 * Dense real linear solver: Gaussian elimination with partial pivoting
 * (src/LinearSolver.cpp, duplicated in main.cpp).
 *
 * The source takes the matrix and the right-hand side by value, swaps rows of
 * its local copies, subtracts scaled pivot rows below the diagonal and finally
 * back-substitutes. `double` is modelled as exact `real`.
 *
 * The specification functions PivotScan, Forward, BackValues and Solve describe
 * what the loops compute; the methods are proved to compute exactly that, and
 * the lemmas at the end prove what the result means: a non-empty result solves
 * A.x = b, the result is empty exactly when a chosen pivot is too small, and the
 * second singularity test (during back-substitution) never fires.
 */
module LinearSolver {
  import opened Options
  import opened Reals
  import opened Matrices

  /** Pivot magnitudes below 1e-9 are treated as singular. */
  const TOLERANCE: real := 0.000000001

  /** Every row of `a` has at least `n` entries. */
  predicate RowsWide(a: Matrix, n: nat) {
    forall k | 0 <= k < |a| :: n <= |a[k]|
  }

  /**
   * What the source needs from its caller: it reads A[k][i] for every row k and
   * column i < n but checks only row 0's width, so rows 1.. must be at least n wide.
   */
  predicate CallerRowsWide(A: Matrix) {
    forall k | 1 <= k < |A| :: |A| <= |A[k]|
  }

  /** The shape test of the source: non-empty, row 0 is n wide, b has n entries. */
  predicate WellShaped(A: Matrix, b: Vector) {
    |A| > 0 && |A[0]| == |A| && |b| == |A|
  }

  /** Sum of row[j] * x[j] for lo <= j < hi, accumulated left to right. */
  function Dot(row: Vector, x: Vector, lo: nat, hi: nat): real
    requires lo <= hi <= |row| && hi <= |x|
    decreases hi
  {
    if hi == lo then 0.0 else Dot(row, x, lo, hi - 1) + row[hi - 1] * x[hi - 1]
  }

  /** x solves the square system a.x = b (only the first |a| columns of a row count). */
  ghost predicate Solves(a: Matrix, b: Vector, x: Vector) {
    |b| == |a| && |x| == |a| && RowsWide(a, |a|) &&
    forall r | 0 <= r < |a| :: Dot(a[r], x, 0, |a|) == b[r]
  }

  /** Every entry below the diagonal in columns 0..i-1 is zero. */
  ghost predicate LowerZero(a: Matrix, i: nat) {
    RowsWide(a, i) &&
    forall r, j | 0 <= j < i && j < r < |a| :: a[r][j] == 0.0
  }

  // ---------------------------------------------------------------------------
  // Specification of the algorithm
  // ---------------------------------------------------------------------------

  /**
   * The row the pivot scan over rows i..k-1 of column i settles on. The strict
   * `>` keeps the earlier row on ties, so the result is the earliest row of
   * maximal magnitude.
   */
  function PivotScan(a: Matrix, i: nat, k: nat): (p: nat)
    requires i < k <= |a| && RowsWide(a, i + 1)
    ensures i <= p < k
    ensures forall r | i <= r < k :: Abs(a[r][i]) <= Abs(a[p][i])
    ensures forall r | i <= r < p :: Abs(a[r][i]) < Abs(a[p][i])
    decreases k
  {
    if k == i + 1 then i
    else
      var p := PivotScan(a, i, k - 1);
      if Abs(a[k - 1][i]) > Abs(a[p][i]) then k - 1 else p
  }

  /** `std::swap` of entries i and j. */
  function SwapRows<T>(s: seq<T>, i: nat, j: nat): (r: seq<T>)
    requires i < |s| && j < |s|
    ensures |r| == |s| && r[i] == s[j] && r[j] == s[i]
    ensures forall k | 0 <= k < |s| && k != i && k != j :: r[k] == s[k]
  {
    s[i := s[j]][j := s[i]]
  }

  /** Row rk after `rk[j] -= factor * ri[j]` for every column i <= j < n. */
  function Reduced(rk: Vector, ri: Vector, factor: real, i: nat, n: nat): (r: Vector)
    requires i <= n <= |rk| && n <= |ri|
    ensures |r| == |rk|
  {
    seq(|rk|, j requires 0 <= j < |rk| => if i <= j < n then rk[j] - factor * ri[j] else rk[j])
  }

  /** One forward-elimination step: every row k > i loses factor_k times pivot row i. */
  function EliminateStep(a: Matrix, b: Vector, i: nat): (r: (Matrix, Vector))
    requires i < |a| == |b| && RowsWide(a, |a|) && a[i][i] != 0.0
    ensures |r.0| == |a| && |r.1| == |a| && RowsWide(r.0, |a|)
  {
    var n := |a|;
    (seq(n, k requires 0 <= k < n =>
       if k > i then Reduced(a[k], a[i], a[k][i] / a[i][i], i, n) else a[k]),
     seq(n, k requires 0 <= k < n =>
       if k > i then b[k] - a[k][i] / a[i][i] * b[i] else b[k]))
  }

  /**
   * Forward elimination from step i on: pick the pivot row, swap it into row i,
   * give up (None) when its magnitude is below TOLERANCE, otherwise eliminate
   * below it and continue with step i + 1.
   */
  function Forward(a: Matrix, b: Vector, i: nat): (r: Option<(Matrix, Vector)>)
    requires i <= |a| == |b| && RowsWide(a, |a|)
    ensures r.Some? ==> |r.value.0| == |a| && |r.value.1| == |a| && RowsWide(r.value.0, |a|)
    decreases |a| - i
  {
    if i == |a| then Some((a, b))
    else
      var p := PivotScan(a, i, |a|);
      var a', b' := SwapRows(a, i, p), SwapRows(b, i, p);
      if Abs(a'[i][i]) < TOLERANCE then None
      else
        var next := EliminateStep(a', b', i);
        Forward(next.0, next.1, i + 1)
  }

  /**
   * The vector back-substitution holds once rows n-1 down to i are done:
   * x starts as n zeros and x[r] := (c[r] - sum_{j>r} u[r][j]*x[j]) / u[r][r].
   */
  function BackValues(u: Matrix, c: Vector, i: nat): (x: Vector)
    requires i <= |u| == |c| && RowsWide(u, |u|)
    requires forall r | i <= r < |u| :: u[r][r] != 0.0
    ensures |x| == |u|
    decreases |u| - i
  {
    if i == |u| then seq(|u|, _ => 0.0)
    else
      var y := BackValues(u, c, i + 1);
      y[i := (c[i] - Dot(u[i], y, i + 1, |u|)) / u[i][i]]
  }

  /** Back-substitution with its own diagonal test: empty when some |u[r][r]| < TOLERANCE. */
  function BackSubst(u: Matrix, c: Vector): (x: Vector)
    requires |u| == |c| && RowsWide(u, |u|)
  {
    if forall r | 0 <= r < |u| :: TOLERANCE <= Abs(u[r][r]) then BackValues(u, c, 0) else []
  }

  /** What `gaussianElimination(A, b)` returns. */
  function Solve(A: Matrix, b: Vector): (x: Vector)
    requires CallerRowsWide(A)
    ensures x == [] || |x| == |A|
  {
    if |A| == 0 then []
    else if |A[0]| != |A| || |b| != |A| then []
    else
      assert RowsWide(A, |A|) by {
        forall k | 0 <= k < |A| ensures |A| <= |A[k]| { if k > 0 { assert 1 <= k < |A|; } }
      }
      match Forward(A, b, 0)
      case None => []
      case Some(ub) => BackSubst(ub.0, ub.1)
  }

  /** Some chosen pivot falls below TOLERANCE during forward elimination. */
  predicate SmallPivot(A: Matrix, b: Vector)
    requires WellShaped(A, b) && CallerRowsWide(A)
  {
    Forward(A, b, 0).None?
  }

  // ---------------------------------------------------------------------------
  // The algorithm
  // ---------------------------------------------------------------------------

  /** The pivot search of step i: the earliest row of largest |a[k][i]| among rows i..n-1. */
  method FindPivot(a: Matrix, i: nat) returns (maxR: nat)
    requires i < |a| && RowsWide(a, |a|)
    ensures maxR == PivotScan(a, i, |a|)
    ensures i <= maxR < |a|
    ensures forall r | i <= r < |a| :: Abs(a[r][i]) <= Abs(a[maxR][i])
    ensures forall r | i <= r < maxR :: Abs(a[r][i]) < Abs(a[maxR][i])
  {
    maxR := i;
    var k := i + 1;
    while k < |a|
      invariant i + 1 <= k <= |a|
      invariant maxR == PivotScan(a, i, k)
    {
      if Abs(a[k][i]) > Abs(a[maxR][i]) {
        maxR := k;
      }
      k := k + 1;
    }
  }

  /** The innermost loop: `rk[j] -= factor * ri[j]` for j = i .. n-1. */
  method SubtractScaledRow(rk: Vector, ri: Vector, factor: real, i: nat, n: nat) returns (r: Vector)
    requires i <= n <= |rk| && n <= |ri|
    ensures r == Reduced(rk, ri, factor, i, n)
  {
    r := rk;
    var j := i;
    while j < n
      invariant i <= j <= n && |r| == |rk|
      invariant forall col | 0 <= col < |rk| :: r[col] == if i <= col < j then rk[col] - factor * ri[col] else rk[col]
    {
      r := r[j := r[j] - factor * ri[j]];
      j := j + 1;
    }
    assert forall col | 0 <= col < |rk| :: r[col] == Reduced(rk, ri, factor, i, n)[col];
  }

  /** Forward elimination below pivot row i, row by row. */
  method EliminateBelow(a: Matrix, b: Vector, i: nat) returns (a': Matrix, b': Vector)
    requires i < |a| == |b| && RowsWide(a, |a|) && a[i][i] != 0.0
    ensures a' == EliminateStep(a, b, i).0 && b' == EliminateStep(a, b, i).1
  {
    var n := |a|;
    a', b' := a, b;
    var k := i + 1;
    while k < n
      invariant i + 1 <= k <= n
      invariant |a'| == n && |b'| == n
      invariant forall r | 0 <= r < n ::
        a'[r] == if i < r < k then Reduced(a[r], a[i], a[r][i] / a[i][i], i, n) else a[r]
      invariant forall r | 0 <= r < n ::
        b'[r] == if i < r < k then b[r] - a[r][i] / a[i][i] * b[i] else b[r]
    {
      assert a'[k] == a[k] && a'[i] == a[i] && b'[k] == b[k] && b'[i] == b[i];
      var factor := a'[k][i] / a'[i][i];
      var row := SubtractScaledRow(a'[k], a'[i], factor, i, n);
      a' := a'[k := row];
      b' := b'[k := b'[k] - factor * b'[i]];
      k := k + 1;
    }
    var step := EliminateStep(a, b, i);
    forall r | 0 <= r < n
      ensures a'[r] == step.0[r] && b'[r] == step.1[r]
    {
      EliminateStepRow(a, b, i, r);
    }
    assert a' == step.0 && b' == step.1;
  }

  /** Row r of one elimination step, read off the comprehension. */
  lemma EliminateStepRow(a: Matrix, b: Vector, i: nat, r: nat)
    requires i < |a| == |b| && RowsWide(a, |a|) && a[i][i] != 0.0 && r < |a|
    ensures EliminateStep(a, b, i).0[r] == if r > i then Reduced(a[r], a[i], a[r][i] / a[i][i], i, |a|) else a[r]
    ensures EliminateStep(a, b, i).1[r] == if r > i then b[r] - a[r][i] / a[i][i] * b[i] else b[r]
  {
  }

  /** Back-substitution from row n-1 down to row 0, re-testing each diagonal entry. */
  method BackSubstitute(u: Matrix, c: Vector) returns (x: Vector)
    requires |u| == |c| && RowsWide(u, |u|)
    ensures x == BackSubst(u, c)
  {
    var n := |u|;
    x := seq(n, _ => 0.0);
    var i := n;
    while i > 0
      invariant 0 <= i <= n
      invariant forall r | i <= r < n :: TOLERANCE <= Abs(u[r][r])
      invariant x == BackValues(u, c, i)
    {
      i := i - 1;
      if Abs(u[i][i]) < TOLERANCE {
        return [];
      }
      ghost var y := x;
      x := x[i := c[i]];
      var j := i + 1;
      while j < n
        invariant i + 1 <= j <= n
        invariant x == y[i := c[i] - Dot(u[i], y, i + 1, j)]
      {
        assert x[j] == y[j];
        x := x[i := x[i] - u[i][j] * x[j]];
        assert x[i] == c[i] - Dot(u[i], y, i + 1, j + 1);
        j := j + 1;
      }
      x := x[i := x[i] / u[i][i]];
    }
  }

  /**
   * `gaussianElimination(A, b)`: the empty vector on an empty matrix, on a shape
   * mismatch or on a pivot below 1e-9; otherwise the n-vector that solves A.x = b.
   */
  method GaussianElimination(A: Matrix, bIn: Vector) returns (x: Vector)
    requires CallerRowsWide(A)
    ensures x == Solve(A, bIn)
  {
    var b := bIn;
    var n := |A|;
    if n == 0 {
      return [];
    }
    if |A[0]| != n || |b| != n {
      return [];
    }
    var a := A;
    var i := 0;
    while i < n
      invariant 0 <= i <= n
      invariant |a| == n && |b| == n && RowsWide(a, n)
      invariant Forward(A, bIn, 0) == Forward(a, b, i)
    {
      var maxR := FindPivot(a, i);
      a := SwapRows(a, i, maxR);
      b := SwapRows(b, i, maxR);
      if Abs(a[i][i]) < TOLERANCE {
        return [];
      }
      a, b := EliminateBelow(a, b, i);
      i := i + 1;
    }
    x := BackSubstitute(a, b);
  }

  // ---------------------------------------------------------------------------
  // Lemmas: the meaning of the result
  // ---------------------------------------------------------------------------

  lemma {:induction false} DotSplit(row: Vector, x: Vector, lo: nat, mid: nat, hi: nat)
    requires lo <= mid <= hi <= |row| && hi <= |x|
    ensures Dot(row, x, lo, hi) == Dot(row, x, lo, mid) + Dot(row, x, mid, hi)
    decreases hi
  {
    if hi > mid {
      DotSplit(row, x, lo, mid, hi - 1);
    }
  }

  lemma {:induction false} DotOfZeros(row: Vector, x: Vector, lo: nat, hi: nat)
    requires lo <= hi <= |row| && hi <= |x|
    requires forall j | lo <= j < hi :: row[j] == 0.0
    ensures Dot(row, x, lo, hi) == 0.0
    decreases hi
  {
    if hi > lo {
      DotOfZeros(row, x, lo, hi - 1);
    }
  }

  lemma {:induction false} DotAgree(row: Vector, x: Vector, y: Vector, lo: nat, hi: nat)
    requires lo <= hi <= |row| && hi <= |x| && hi <= |y|
    requires forall j | lo <= j < hi :: x[j] == y[j]
    ensures Dot(row, x, lo, hi) == Dot(row, y, lo, hi)
    decreases hi
  {
    if hi > lo {
      DotAgree(row, x, y, lo, hi - 1);
    }
  }

  /** A reduced row is the old row minus factor times the pivot row, as linear forms. */
  lemma {:induction false} DotReduced(rk: Vector, ri: Vector, f: real, i: nat, n: nat, x: Vector, hi: nat)
    requires i <= n <= |rk| && n <= |ri| && n <= |x| && hi <= n
    requires forall j | 0 <= j < i :: ri[j] == 0.0
    ensures Dot(Reduced(rk, ri, f, i, n), x, 0, hi) == Dot(rk, x, 0, hi) - f * Dot(ri, x, 0, hi)
    decreases hi
  {
    if hi > 0 {
      var R := Reduced(rk, ri, f, i, n);
      var j := hi - 1;
      DotReduced(rk, ri, f, i, n, x, j);
      assert R[j] == rk[j] - f * ri[j];
      ReducedTerm(Dot(R, x, 0, j), Dot(rk, x, 0, j), Dot(ri, x, 0, j), rk[j], ri[j], x[j], f);
    }
  }

  /** One more column of a reduced row: (s + (p - f*q)*t) = (sp + p*t) - f*(sq + q*t) when s = sp - f*sq. */
  lemma ReducedTerm(s: real, sp: real, sq: real, p: real, q: real, t: real, f: real)
    requires s == sp - f * sq
    ensures s + (p - f * q) * t == (sp + p * t) - f * (sq + q * t)
  {
  }

  /** Swapping row i with a row p >= i keeps the zeros below the diagonal in columns < i. */
  lemma SwapKeepsLowerZero(a: Matrix, i: nat, p: nat)
    requires i <= p < |a| && LowerZero(a, i)
    ensures LowerZero(SwapRows(a, i, p), i)
  {
  }

  /** After step i the zeros below the diagonal reach column i as well. */
  lemma EliminateStepLowerZero(a: Matrix, b: Vector, i: nat)
    requires i < |a| == |b| && RowsWide(a, |a|) && a[i][i] != 0.0
    requires LowerZero(a, i)
    ensures LowerZero(EliminateStep(a, b, i).0, i + 1)
  {
    var a' := EliminateStep(a, b, i).0;
    forall r, j | 0 <= j < i + 1 && j < r < |a|
      ensures a'[r][j] == 0.0
    {
      if j == i {
        var f := a[r][i] / a[i][i];
        assert a'[r][i] == a[r][i] - f * a[i][i];
        assert f * a[i][i] == a[r][i];
      }
    }
  }

  /** A solution of the system after step i also solves the system before it. */
  lemma EliminateStepSound(a: Matrix, b: Vector, i: nat, x: Vector)
    requires i < |a| == |b| && RowsWide(a, |a|) && a[i][i] != 0.0
    requires LowerZero(a, i)
    requires Solves(EliminateStep(a, b, i).0, EliminateStep(a, b, i).1, x)
    ensures Solves(a, b, x)
  {
    var n := |a|;
    var next := EliminateStep(a, b, i);
    assert Dot(a[i], x, 0, n) == b[i] by {
      EliminateStepRow(a, b, i, i);
    }
    forall k | 0 <= k < n
      ensures Dot(a[k], x, 0, n) == b[k]
    {
      EliminateStepRow(a, b, i, k);
      if k > i {
        var f := a[k][i] / a[i][i];
        assert forall j | 0 <= j < i :: a[i][j] == 0.0;
        ReducedRowSound(a[k], a[i], f, i, n, x, b[k], b[i]);
      }
    }
  }

  /** If the reduced row meets b_k - f*b_i and the pivot row meets b_i, the original row meets b_k. */
  lemma ReducedRowSound(rk: Vector, ri: Vector, f: real, i: nat, n: nat, x: Vector, bk: real, bi: real)
    requires i <= n <= |rk| && n <= |ri| && n <= |x|
    requires forall j | 0 <= j < i :: ri[j] == 0.0
    requires Dot(ri, x, 0, n) == bi
    requires Dot(Reduced(rk, ri, f, i, n), x, 0, n) == bk - f * bi
    ensures Dot(rk, x, 0, n) == bk
  {
    DotReduced(rk, ri, f, i, n, x, n);
  }

  /** A solution of a system with two rows swapped solves the original system. */
  lemma SwapSound(a: Matrix, b: Vector, i: nat, p: nat, x: Vector)
    requires i < |a| && p < |a| && |b| == |a|
    requires Solves(SwapRows(a, i, p), SwapRows(b, i, p), x)
    ensures Solves(a, b, x)
  {
    var a', b' := SwapRows(a, i, p), SwapRows(b, i, p);
    forall r | 0 <= r < |a|
      ensures Dot(a[r], x, 0, |a|) == b[r]
    {
      var s := if r == i then p else if r == p then i else r;
      assert a'[s] == a[r] && b'[s] == b[r];
    }
  }

  /** Forward elimination leaves an upper-triangular system. */
  lemma {:induction false} ForwardUpper(a: Matrix, b: Vector, i: nat)
    requires i <= |a| == |b| && RowsWide(a, |a|) && LowerZero(a, i)
    requires Forward(a, b, i).Some?
    ensures LowerZero(Forward(a, b, i).value.0, |a|)
    decreases |a| - i
  {
    if i < |a| {
      var p := PivotScan(a, i, |a|);
      SwapKeepsLowerZero(a, i, p);
      var a', b' := SwapRows(a, i, p), SwapRows(b, i, p);
      EliminateStepLowerZero(a', b', i);
      var next := EliminateStep(a', b', i);
      ForwardUpper(next.0, next.1, i + 1);
    }
  }

  /** Whatever solves the system forward elimination produces solves the system it started from. */
  lemma {:induction false} ForwardSound(a: Matrix, b: Vector, i: nat, x: Vector)
    requires i <= |a| == |b| && RowsWide(a, |a|) && LowerZero(a, i)
    requires Forward(a, b, i).Some?
    requires Solves(Forward(a, b, i).value.0, Forward(a, b, i).value.1, x)
    ensures Solves(a, b, x)
    decreases |a| - i
  {
    if i < |a| {
      var p := PivotScan(a, i, |a|);
      SwapKeepsLowerZero(a, i, p);
      var a', b' := SwapRows(a, i, p), SwapRows(b, i, p);
      EliminateStepLowerZero(a', b', i);
      var next := EliminateStep(a', b', i);
      ForwardSound(next.0, next.1, i + 1, x);
      EliminateStepSound(a', b', i, x);
      SwapSound(a, b, i, p, x);
    }
  }

  /**
   * Row r is final once step r is done: rows before step i are returned as they
   * are, and every diagonal entry from row i on is at least TOLERANCE in magnitude.
   */
  lemma {:induction false} ForwardDiagonal(a: Matrix, b: Vector, i: nat)
    requires i <= |a| == |b| && RowsWide(a, |a|)
    requires Forward(a, b, i).Some?
    ensures forall r | 0 <= r < i :: Forward(a, b, i).value.0[r] == a[r]
    ensures forall r | i <= r < |a| :: TOLERANCE <= Abs(Forward(a, b, i).value.0[r][r])
    decreases |a| - i
  {
    if i < |a| {
      var p := PivotScan(a, i, |a|);
      var a', b' := SwapRows(a, i, p), SwapRows(b, i, p);
      var next := EliminateStep(a', b', i);
      ForwardDiagonal(next.0, next.1, i + 1);
      forall r | 0 <= r <= i
        ensures next.0[r] == a'[r]
      {
        EliminateStepRow(a', b', i, r);
      }
    }
  }

  /** The back-substitution test never fires on what forward elimination returns. */
  lemma BackCheckNeverFires(A: Matrix, b: Vector)
    requires WellShaped(A, b) && CallerRowsWide(A)
    requires Forward(A, b, 0).Some?
    ensures var ub := Forward(A, b, 0).value;
      forall r | 0 <= r < |A| :: TOLERANCE <= Abs(ub.0[r][r])
  {
    ForwardDiagonal(A, b, 0);
  }

  /** BackValues agrees with later stages on the entries those stages already fixed. */
  lemma {:induction false} BackValuesStable(u: Matrix, c: Vector, i: nat, j: nat)
    requires i <= j < |u| == |c| && RowsWide(u, |u|)
    requires forall r | i <= r < |u| :: u[r][r] != 0.0
    ensures BackValues(u, c, i)[j] == BackValues(u, c, j)[j]
    decreases j - i
  {
    if i < j {
      BackValuesStable(u, c, i + 1, j);
    }
  }

  /** Dividing out the pivot: x_r = (c_r - d) / pivot means pivot * x_r + d = c_r. */
  lemma DivideOut(pivot: real, xr: real, cr: real, d: real)
    requires pivot != 0.0 && xr == (cr - d) / pivot
    ensures pivot * xr + d == cr
  {
  }

  /** A row that is zero left of r and meets its equation from column r on meets it in full. */
  lemma RowCombine(row: Vector, x: Vector, r: nat, n: nat, cr: real)
    requires r < n <= |row| && n <= |x|
    requires forall j | 0 <= j < r :: row[j] == 0.0
    requires Dot(row, x, r, n) == cr
    ensures Dot(row, x, 0, n) == cr
  {
    DotOfZeros(row, x, 0, r);
    DotSplit(row, x, 0, r, n);
  }

  lemma DotSingle(row: Vector, x: Vector, r: nat)
    requires r < |row| && r < |x|
    ensures Dot(row, x, r, r + 1) == row[r] * x[r]
  {
  }

  lemma BackValuesAt(u: Matrix, c: Vector, i: nat)
    requires i < |u| == |c| && RowsWide(u, |u|)
    requires forall r | i <= r < |u| :: u[r][r] != 0.0
    ensures BackValues(u, c, i)[i] == (c[i] - Dot(u[i], BackValues(u, c, i + 1), i + 1, |u|)) / u[i][i]
  {
  }

  /** Row r from its diagonal on, when x[r] was back-substituted against the rest d of the row. */
  lemma RowFromPivot(row: Vector, x: Vector, r: nat, n: nat, cr: real, d: real)
    requires r < n <= |row| && n <= |x|
    requires row[r] != 0.0 && x[r] == (cr - d) / row[r] && Dot(row, x, r + 1, n) == d
    ensures Dot(row, x, r, n) == cr
  {
    DivideOut(row[r], x[r], cr, d);
    DotSplit(row, x, r, r + 1, n);
    DotSingle(row, x, r);
  }

  /** Right of column r the full back-substituted vector and the one from stage r + 1 weigh row r alike. */
  lemma BackValuesTail(u: Matrix, c: Vector, r: nat)
    requires |u| == |c| && RowsWide(u, |u|)
    requires forall k | 0 <= k < |u| :: u[k][k] != 0.0
    requires r < |u|
    ensures Dot(u[r], BackValues(u, c, 0), r + 1, |u|) == Dot(u[r], BackValues(u, c, r + 1), r + 1, |u|)
  {
    var x := BackValues(u, c, 0);
    var y := BackValues(u, c, r + 1);
    forall j | r + 1 <= j < |u|
      ensures x[j] == y[j]
    {
      BackValuesStable(u, c, 0, j);
      BackValuesStable(u, c, r + 1, j);
    }
    DotAgree(u[r], x, y, r + 1, |u|);
  }

  /** Row r of the back-substituted vector holds from the diagonal on. */
  lemma BackValuesFixed(u: Matrix, c: Vector, r: nat)
    requires |u| == |c| && RowsWide(u, |u|)
    requires forall k | 0 <= k < |u| :: u[k][k] != 0.0
    requires r < |u|
    ensures Dot(u[r], BackValues(u, c, 0), r, |u|) == c[r]
  {
    var d := Dot(u[r], BackValues(u, c, r + 1), r + 1, |u|);
    BackValuesTail(u, c, r);
    assert BackValues(u, c, 0)[r] == (c[r] - d) / u[r][r] by {
      BackValuesStable(u, c, 0, r);
      BackValuesAt(u, c, r);
    }
    RowFromPivot(u[r], BackValues(u, c, 0), r, |u|, c[r], d);
  }

  /** x meets every row's equation from the diagonal on: u[r][r]*x[r] + sum_{j>r} u[r][j]*x[j] = c[r]. */
  ghost predicate BackSubstituted(u: Matrix, c: Vector, x: Vector) {
    |c| == |u| && |x| == |u| && RowsWide(u, |u|) &&
    forall r | 0 <= r < |u| :: Dot(u[r], x, r, |u|) == c[r]
  }

  /** The back-substituted vector meets every row's equation from the diagonal on. */
  lemma BackValuesSubstituted(u: Matrix, c: Vector)
    requires |u| == |c| && RowsWide(u, |u|)
    requires forall r | 0 <= r < |u| :: u[r][r] != 0.0
    ensures BackSubstituted(u, c, BackValues(u, c, 0))
  {
    forall r | 0 <= r < |u|
      ensures Dot(u[r], BackValues(u, c, 0), r, |u|) == c[r]
    {
      BackValuesFixed(u, c, r);
    }
  }

  /** On an upper-triangular system, meeting every row from the diagonal on is solving it. */
  lemma UpperSolved(u: Matrix, c: Vector, x: Vector)
    requires LowerZero(u, |u|) && BackSubstituted(u, c, x)
    ensures Solves(u, c, x)
  {
    forall r | 0 <= r < |u|
      ensures Dot(u[r], x, 0, |u|) == c[r]
    {
      RowCombine(u[r], x, r, |u|, c[r]);
    }
  }

  /** Back-substitution solves an upper-triangular system with a non-zero diagonal. */
  lemma BackValuesSolve(u: Matrix, c: Vector)
    requires |u| == |c| && RowsWide(u, |u|) && LowerZero(u, |u|)
    requires forall r | 0 <= r < |u| :: u[r][r] != 0.0
    ensures Solves(u, c, BackValues(u, c, 0))
  {
    BackValuesSubstituted(u, c);
    UpperSolved(u, c, BackValues(u, c, 0));
  }

  /** In exact arithmetic a non-empty result solves A.x = b. */
  lemma SolveSound(A: Matrix, b: Vector)
    requires CallerRowsWide(A)
    requires Solve(A, b) != []
    ensures Solves(A, b, Solve(A, b))
  {
    var n := |A|;
    assert WellShaped(A, b);
    assert LowerZero(A, 0);
    var ub := Forward(A, b, 0).value;
    ForwardUpper(A, b, 0);
    ForwardDiagonal(A, b, 0);
    BackValuesSolve(ub.0, ub.1);
    ForwardSound(A, b, 0, BackValues(ub.0, ub.1, 0));
  }

  /** On a well-shaped system the result is empty exactly when a chosen pivot is below 1e-9. */
  lemma SolveEmptyIffSmallPivot(A: Matrix, b: Vector)
    requires WellShaped(A, b) && CallerRowsWide(A)
    ensures Solve(A, b) == [] <==> SmallPivot(A, b)
  {
    if Forward(A, b, 0).Some? {
      BackCheckNeverFires(A, b);
    }
  }

  /**
   * What `gaussianElimination` promises: an empty result on a malformed system or
   * exactly when a chosen pivot is below 1e-9, and otherwise n values that solve A.x = b.
   */
  lemma SolveMeaning(A: Matrix, b: Vector)
    requires CallerRowsWide(A)
    ensures var x := Solve(A, b);
      (x == [] || |x| == |A|) &&
      (!WellShaped(A, b) ==> x == []) &&
      (WellShaped(A, b) ==> (x == [] <==> SmallPivot(A, b))) &&
      (x != [] ==> Solves(A, b, x))
  {
    if WellShaped(A, b) {
      SolveEmptyIffSmallPivot(A, b);
    }
    if Solve(A, b) != [] {
      SolveSound(A, b);
    }
  }

  /** A solver: from a matrix and a right-hand side to the solution it returns. */
  type Solver = (Matrix, Vector) -> Vector

  /**
   * solve returns what `gaussianElimination` returns wherever the source may
   * call it. The drivers that solve take the solver as a ghost function value
   * bound by this predicate, so that their proofs use only the solutions, not
   * how they are found.
   */
  ghost predicate IsGaussian(solve: Solver) {
    forall A: Matrix, b: Vector {:trigger Solve(A, b)} | CallerRowsWide(A) ::
      solve(A, b) == Solve(A, b)
  }

  /** `gaussianElimination` as a solver value (an empty result where it may not be called). */
  function Gaussian(): Solver {
    (A: Matrix, b: Vector) => if CallerRowsWide(A) then Solve(A, b) else []
  }

  /** The solver the drivers are proved for exists: it is `gaussianElimination`. */
  lemma GaussianIsGaussian()
    ensures IsGaussian(Gaussian())
  {
  }

  /** `gaussianElimination` seen through a solver value: it returns what the solver returns, with that result's meaning. */
  method GaussianSolve(A: Matrix, b: Vector, ghost solve: Solver) returns (x: Vector)
    requires CallerRowsWide(A) && IsGaussian(solve)
    ensures x == solve(A, b)
    ensures x == [] || |x| == |A|
    ensures x != [] ==> Solves(A, b, x)
  {
    x := GaussianElimination(A, b);
    SolveMeaning(A, b);
  }
}
