/**
 * The linear system behind the spline fit: an n×n matrix with 4 on the diagonal and 1
 * beside it (Spline::createCoefficientMatrix), and its solution. The source multiplies by
 * Eigen's inverse of the matrix; the model solves the same system exactly over the reals
 * with a forward sweep and a back substitution (the Thomas algorithm).
 */
module Tridiagonal {

  /** Entry (i, j) of the coefficient matrix. */
  function Coefficient(i: int, j: int): real {
    if i == j then 4.0 else if i - j == 1 || j - i == 1 then 1.0 else 0.0
  }

  /** The sum of coef(i, m) * x[m] over the first j columns. */
  function PartialRow(x: seq<real>, i: int, j: nat): real
    requires j <= |x|
  {
    if j == 0 then 0.0 else PartialRow(x, i, j - 1) + Coefficient(i, j - 1) * x[j - 1]
  }

  /** Row i of the matrix-vector product coef * x. */
  function Product(x: seq<real>, i: int): real {
    PartialRow(x, i, |x|)
  }

  /** Row i of coef * x written out: neighbours outside the matrix contribute nothing. */
  function Band(x: seq<real>, i: nat): real
    requires i < |x|
  {
    (if i > 0 then x[i - 1] else 0.0) + 4.0 * x[i] + (if i + 1 < |x| then x[i + 1] else 0.0)
  }

  lemma {:induction false} PartialRowIsBand(x: seq<real>, i: nat, j: nat)
    requires i < |x| && j <= |x|
    ensures PartialRow(x, i, j) ==
      (if 0 < i && i - 1 < j then x[i - 1] else 0.0)
      + (if i < j then 4.0 * x[i] else 0.0)
      + (if i + 1 < j then x[i + 1] else 0.0)
  {
    if j > 0 {
      PartialRowIsBand(x, i, j - 1);
    }
  }

  /** Only the three band entries of a row contribute to the product. */
  lemma ProductIsBand(x: seq<real>, i: nat)
    requires i < |x|
    ensures Product(x, i) == Band(x, i)
  {
    PartialRowIsBand(x, i, |x|);
  }

  // ---------------------------------------------------------------------------
  // createCoefficientMatrix as written

  /**
   * The (row, column) pairs the middle-row loop writes, for rows i .. n - 2: three per row,
   * each on the band and in a row from i on.
   */
  function MiddleWrites(i: int, n: int): (ws: seq<(int, int)>)
    ensures |ws| == if i >= n - 1 then 0 else 3 * (n - 1 - i)
    ensures forall w :: w in ws ==> i <= w.0 < n - 1 && -1 <= w.0 - w.1 <= 1
    decreases n - i
  {
    if i >= n - 1 then [] else [(i, i - 1), (i, i), (i, i + 1)] + MiddleWrites(i + 1, n)
  }

  /**
   * The (row, column) pairs Spline::createCoefficientMatrix writes after zero-filling an
   * n×n matrix, in program order: the first row, the middle rows, the last row.
   */
  function CoefficientWritesAsWritten(n: int): (ws: seq<(int, int)>)
    ensures |ws| == 4 + (if n >= 2 then 3 * (n - 2) else 0)
    ensures forall w :: w in ws ==> -1 <= w.0 - w.1 <= 1
    ensures (0, 1) in ws && (n - 1, n - 2) in ws
  {
    [(0, 0), (0, 1)] + MiddleWrites(1, n) + [(n - 1, n - 2), (n - 1, n - 1)]
  }

  predicate InBounds(n: int, w: (int, int)) {
    0 <= w.0 < n && 0 <= w.1 < n
  }

  lemma {:induction false} MiddleWritesInBounds(i: int, n: int)
    requires i >= 1
    ensures forall w :: w in MiddleWrites(i, n) ==> InBounds(n, w)
    decreases n - i
  {
    if i < n - 1 {
      MiddleWritesInBounds(i + 1, n);
    }
  }

  /**
   * Every write of createCoefficientMatrix is inside the matrix exactly when it has at
   * least two rows, that is, when the spline has at least four knots.
   */
  lemma CoefficientWritesInBoundsIff(n: int)
    requires n >= 1
    ensures (forall w :: w in CoefficientWritesAsWritten(n) ==> InBounds(n, w)) <==> n >= 2
  {
    MiddleWritesInBounds(1, n);
    if n == 1 {
      assert (0, 1) in CoefficientWritesAsWritten(n);
    }
  }

  /** For three knots (a 1×1 matrix) the writes coef(0, 1) and coef(0, -1) fall outside it. */
  lemma OneByOneMatrixWritesOutOfBounds()
    ensures (0, 1) in CoefficientWritesAsWritten(1) && !InBounds(1, (0, 1))
    ensures (0, -1) in CoefficientWritesAsWritten(1) && !InBounds(1, (0, -1))
  {
    assert CoefficientWritesAsWritten(1)[1] == (0, 1);
    assert CoefficientWritesAsWritten(1)[2] == (0, -1);
  }

  // ---------------------------------------------------------------------------
  // createCoefficientMatrix with the off-diagonal writes guarded

  /**
   * Fills the coefficient matrix as createCoefficientMatrix does, skipping the two
   * off-diagonal writes of the first and last row when the matrix has a single row.
   */
  method CreateCoefficientMatrix(n: nat) returns (coef: array2<real>)
    requires n >= 1
    ensures coef.Length0 == n && coef.Length1 == n
    ensures forall i, j :: 0 <= i < n && 0 <= j < n ==> coef[i, j] == Coefficient(i, j)
  {
    coef := new real[n, n];
    for i := 0 to n
      invariant forall r, c :: 0 <= r < i && 0 <= c < n ==> coef[r, c] == 0.0
    {
      for j := 0 to n
        invariant forall r, c :: 0 <= r < i && 0 <= c < n ==> coef[r, c] == 0.0
        invariant forall c :: 0 <= c < j ==> coef[i, c] == 0.0
      {
        coef[i, j] := 0.0;
      }
    }

    // First row
    coef[0, 0] := 4.0;
    if n >= 2 {
      coef[0, 1] := 1.0;
    }

    var i := 1;
    while i < n - 1
      invariant 1 <= i <= if n >= 2 then n - 1 else 1
      invariant forall r, c :: 0 <= r < n && 0 <= c < n ==>
        coef[r, c] == if r < i then Coefficient(r, c) else 0.0
    {
      coef[i, i - 1] := 1.0;
      coef[i, i] := 4.0;
      coef[i, i + 1] := 1.0;
      i := i + 1;
    }

    // Last row
    if n >= 2 {
      coef[n - 1, n - 2] := 1.0;
    }
    coef[n - 1, n - 1] := 4.0;
  }

  // ---------------------------------------------------------------------------
  // The solve

  /** The super-diagonal entry of row k, or 0 for the last row. */
  function Upper(n: int, k: int): real {
    if k + 1 < n then 1.0 else 0.0
  }

  lemma PivotBound(c: real, m: real, up: real)
    requires 0.0 <= up <= 1.0
    requires m >= 3.0
    requires c * m == up
    ensures 0.0 <= c <= 1.0 / 3.0
  {
    assert c == up / m;
  }

  /** Row 0 of the system follows from the first step of the sweep and of the substitution. */
  lemma FirstRowHolds(x0: real, x1: real, c0: real, e0: real, d0: real, up: real)
    requires 4.0 * c0 == up
    requires 4.0 * e0 == d0
    requires x0 + c0 * x1 == e0
    ensures 4.0 * x0 + up * x1 == d0
  {
    calc {
      4.0 * x0 + up * x1;
      4.0 * x0 + 4.0 * c0 * x1;
      4.0 * (x0 + c0 * x1);
      d0;
    }
  }

  /** An inner row of the system follows from the sweep relations of its row and the one above. */
  lemma InnerRowHolds(xm: real, x0: real, xp: real, cm: real, c0: real, em: real, e0: real, d0: real, up: real)
    requires xm + cm * x0 == em
    requires c0 * (4.0 - cm) == up
    requires e0 * (4.0 - cm) == d0 - em
    requires x0 + c0 * xp == e0
    ensures xm + 4.0 * x0 + up * xp == d0
  {
    calc {
      d0;
      e0 * (4.0 - cm) + em;
      (x0 + c0 * xp) * (4.0 - cm) + em;
      4.0 * x0 - cm * x0 + c0 * (4.0 - cm) * xp + em;
      4.0 * x0 - cm * x0 + up * xp + xm + cm * x0;
      xm + 4.0 * x0 + up * xp;
    }
  }

  /** The relations the forward sweep establishes between its outputs c, e and the system. */
  ghost predicate Swept(n: nat, d: seq<real>, c: seq<real>, e: seq<real>, i: nat)
    requires i <= |c| && i <= |e| && i <= |d|
  {
    && (forall k :: 0 <= k < i ==> 0.0 <= c[k] <= 1.0 / 3.0)
    && (i > 0 ==> 4.0 * c[0] == Upper(n, 0) && 4.0 * e[0] == d[0])
    && (forall k :: 1 <= k < i ==> Eliminated(Upper(n, k), d[k], c[k], c[k - 1], e[k], e[k - 1]))
  }

  /** The forward sweep: eliminates the sub-diagonal row by row. */
  method Sweep(coef: array2<real>, d: seq<real>) returns (c: seq<real>, e: seq<real>)
    requires |d| >= 1
    requires coef.Length0 == |d| && coef.Length1 == |d|
    requires forall i, j :: 0 <= i < |d| && 0 <= j < |d| ==> coef[i, j] == Coefficient(i, j)
    ensures |c| == |d| && |e| == |d|
    ensures Swept(|d|, d, c, e, |d|)
  {
    var n := |d|;
    var upper := if n >= 2 then coef[0, 1] else 0.0;
    c := [upper / coef[0, 0]];
    e := [d[0] / coef[0, 0]];
    var i := 1;
    while i < n
      invariant 1 <= i <= n
      invariant |c| == i && |e| == i
      invariant Swept(n, d, c, e, i)
    {
      var lower := coef[i, i - 1];
      var pivot := coef[i, i] - lower * c[i - 1];
      upper := if i + 1 < n then coef[i, i + 1] else 0.0;
      assert lower == 1.0 && coef[i, i] == 4.0 && upper == Upper(n, i);
      assert pivot == 4.0 - c[i - 1];
      var ci := upper / pivot;
      var ei := (d[i] - lower * e[i - 1]) / pivot;
      Quotient(upper, pivot);
      Quotient(d[i] - e[i - 1], pivot);
      PivotBound(ci, pivot, upper);
      SweptStep(n, d, c, e, i, ci, ei);
      c, e := c + [ci], e + [ei];
      i := i + 1;
    }
  }

  lemma Quotient(a: real, b: real)
    requires b != 0.0
    ensures (a / b) * b == a
  {
  }

  /** A row relation of the sweep, kept as its own symbol so that the solver does not unfold it needlessly. */
  predicate Eliminated(up: real, dk: real, ck: real, cprev: real, ek: real, eprev: real) {
    ck * (4.0 - cprev) == up && ek * (4.0 - cprev) == dk - eprev
  }

  lemma SweptStep(n: nat, d: seq<real>, c: seq<real>, e: seq<real>, i: nat, ci: real, ei: real)
    requires 1 <= i < |d| && |c| == i && |e| == i
    requires Swept(n, d, c, e, i)
    requires 0.0 <= ci <= 1.0 / 3.0
    requires Eliminated(Upper(n, i), d[i], ci, c[i - 1], ei, e[i - 1])
    ensures Swept(n, d, c + [ci], e + [ei], i + 1)
  {
    var c', e' := c + [ci], e + [ei];
    forall k | 0 <= k < i + 1
      ensures 0.0 <= c'[k] <= 1.0 / 3.0
    {
    }
    forall k | 1 <= k < i + 1
      ensures Eliminated(Upper(n, k), d[k], c'[k], c'[k - 1], e'[k], e'[k - 1])
    {
      if k < i {
        assert c'[k] == c[k] && c'[k - 1] == c[k - 1] && e'[k] == e[k] && e'[k - 1] == e[k - 1];
      }
    }
  }

  /** The back substitution: x[n-1] = e[n-1], then x[k] = e[k] - c[k] * x[k+1] upwards. */
  method Substitute(c: seq<real>, e: seq<real>) returns (x: seq<real>)
    requires |c| == |e| >= 1
    ensures |x| == |e|
    ensures x[|e| - 1] == e[|e| - 1]
    ensures forall k :: 0 <= k < |e| - 1 ==> x[k] + c[k] * x[k + 1] == e[k]
  {
    var n := |e|;
    var xs := new real[n];
    xs[n - 1] := e[n - 1];
    var j := n - 1;
    while j > 0
      invariant 0 <= j <= n - 1
      invariant xs[n - 1] == e[n - 1]
      invariant forall k :: j <= k < n - 1 ==> xs[k] + c[k] * xs[k + 1] == e[k]
    {
      j := j - 1;
      var next := xs[j + 1];
      xs[j] := e[j] - c[j] * next;
      assert xs[j] + c[j] * next == e[j];
    }
    x := xs[..];
  }

  /** What the sweep and the substitution establish together is the system itself. */
  lemma SweptSolves(d: seq<real>, c: seq<real>, e: seq<real>, x: seq<real>)
    requires |d| >= 1 && |c| == |d| && |e| == |d| && |x| == |d|
    requires Swept(|d|, d, c, e, |d|)
    requires x[|e| - 1] == e[|e| - 1]
    requires forall k :: 0 <= k < |e| - 1 ==> x[k] + c[k] * x[k + 1] == e[k]
    ensures forall i :: 0 <= i < |d| ==> Product(x, i) == d[i]
  {
    var n := |d|;
    forall r | 0 <= r < n
      ensures Product(x, r) == d[r]
    {
      ProductIsBand(x, r);
      var xp := if r + 1 < n then x[r + 1] else 0.0;
      assert x[r] + c[r] * xp == e[r];
      if r == 0 {
        FirstRowHolds(x[0], xp, c[0], e[0], d[0], Upper(n, 0));
      } else {
        InnerRowHolds(x[r - 1], x[r], xp, c[r - 1], c[r], e[r - 1], e[r], d[r], Upper(n, r));
      }
    }
  }

  /**
   * Solves coef * x = d for the coefficient matrix of size |d| (the product the source
   * forms with Eigen's inverse), reading the band entries from the matrix.
   */
  method Solve(coef: array2<real>, d: seq<real>) returns (x: seq<real>)
    requires |d| >= 1
    requires coef.Length0 == |d| && coef.Length1 == |d|
    requires forall i, j :: 0 <= i < |d| && 0 <= j < |d| ==> coef[i, j] == Coefficient(i, j)
    ensures |x| == |d|
    ensures forall i :: 0 <= i < |d| ==> Product(x, i) == d[i]
  {
    var c, e := Sweep(coef, d);
    x := Substitute(c, e);
    SweptSolves(d, c, e, x);
  }
}
