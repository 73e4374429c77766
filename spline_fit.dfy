/**
 * Fitting cubic Bezier patches through the knots of a spline (Spline::getSplineControlPoints
 * and the k >= 3 branch of Spline::update), over exact reals.
 *
 * For knots K[0..k-1] the spline control points S keep the end knots, S[0] = K[0] and
 * S[k-1] = K[k-1], and the interior ones solve the tridiagonal system
 *   S[i-1] + 4 S[i] + S[i+1] = 6 K[i]   for 1 <= i <= k-2,
 * which the source writes with the known end points moved to the right-hand side.
 * Patch i then runs K[i], 2/3 S[i] + 1/3 S[i+1], 1/3 S[i] + 2/3 S[i+1], K[i+1].
 */
module SplineFit {
  import opened Vectors
  import Tridiagonal

  // ---------------------------------------------------------------------------
  // The right-hand side of the system

  /**
   * Row i of the right-hand side (row i stands for knot i + 1): 6 K[i+1], less K[0] in the
   * first row and less K[k-1] in the last one. With three knots the single row is both.
   */
  function Rhs(K: seq<Vec3>, i: nat): Vec3
    requires |K| >= 3 && i < |K| - 2
  {
    var r := Scale(6.0, K[i + 1]);
    var first := if i == 0 then Sub(r, K[0]) else r;
    if i == |K| - 3 then Sub(first, K[|K| - 1]) else first
  }

  /**
   * Row i as getSplineControlPoints writes it: row 0 gets 6 K[1] - K[0], then row k-3 gets
   * 6 K[k-2] - K[k-1], and the rows between get 6 K[i+1]. With three knots both edge
   * assignments go to row 0 and the second replaces the first.
   */
  function RhsAsWritten(K: seq<Vec3>, i: nat): Vec3
    requires |K| >= 3 && i < |K| - 2
  {
    if i == |K| - 3 then Sub(Scale(6.0, K[|K| - 2]), K[|K| - 1])
    else if i == 0 then Sub(Scale(6.0, K[1]), K[0])
    else Scale(6.0, K[i + 1])
  }

  /**
   * Adding back the end knots a row had moved over gives 6 K[i+1], the right-hand side of
   * the interior equation S[i] + 4 S[i+1] + S[i+2] = 6 K[i+1].
   */
  lemma RhsMovesEndKnots(K: seq<Vec3>, i: nat)
    requires |K| >= 3 && i < |K| - 2
    ensures Add(Add(Rhs(K, i), if i == 0 then K[0] else Zero), if i == |K| - 3 then K[|K| - 1] else Zero)
         == Scale(6.0, K[i + 1])
  {
  }

  /** With three knots the source's single row is the intended one with K[0] left in. */
  lemma ThreeKnotRhsAsWrittenKeepsFirstKnot(K: seq<Vec3>)
    requires |K| == 3
    ensures RhsAsWritten(K, 0) == Add(Rhs(K, 0), K[0])
  {
  }

  /** From four knots on, the source's right-hand side is the intended one. */
  lemma RhsAsWrittenAgreesFromFourKnots(K: seq<Vec3>, i: nat)
    requires |K| >= 4 && i < |K| - 2
    ensures RhsAsWritten(K, i) == Rhs(K, i)
  {
  }

  // ---------------------------------------------------------------------------
  // The spline control points

  /** S keeps the end knots and solves the system at every interior knot. */
  ghost predicate IsSplineControlPoints(K: seq<Vec3>, S: seq<Vec3>) {
    && |S| == |K| >= 2
    && S[0] == K[0]
    && S[|K| - 1] == K[|K| - 1]
    && forall i :: 1 <= i < |K| - 1 ==> RowHolds(K, S, i)
  }

  /** The equation of interior knot i. */
  predicate RowHolds(K: seq<Vec3>, S: seq<Vec3>, i: nat)
    requires |S| == |K| && 1 <= i < |K| - 1
  {
    Add(Add(S[i - 1], Scale(4.0, S[i])), S[i + 1]) == Scale(6.0, K[i])
  }

  /** The scalar row of knot i on one axis, given the three solution values and the right-hand side. */
  lemma AxisRow(prev: real, mid: real, next: real, band: real, rhs: real,
                sPrev: real, sNext: real, kFirst: real, kLast: real, kMid: real, isFirst: bool, isLast: bool)
    requires band == (if isFirst then 0.0 else prev) + 4.0 * mid + (if isLast then 0.0 else next)
    requires band == rhs
    requires rhs == 6.0 * kMid - (if isFirst then kFirst else 0.0) - (if isLast then kLast else 0.0)
    requires sPrev == (if isFirst then kFirst else prev)
    requires sNext == (if isLast then kLast else next)
    ensures sPrev + 4.0 * mid + sNext == 6.0 * kMid
  {
  }

  /**
   * getSplineControlPoints: builds the right-hand side one axis per column, solves the
   * system once per axis and puts the end knots around the solution.
   */
  method SplineControlPoints(K: seq<Vec3>) returns (S: seq<Vec3>)
    requires |K| >= 3
    ensures IsSplineControlPoints(K, S)
  {
    var k := |K|;
    var n := k - 2;
    var cx, cy, cz := [], [], [];
    for i := 0 to n
      invariant |cx| == i && |cy| == i && |cz| == i
      invariant forall r :: 0 <= r < i ==> cx[r] == Rhs(K, r).x && cy[r] == Rhs(K, r).y && cz[r] == Rhs(K, r).z
    {
      var row := Scale(6.0, K[i + 1]);
      if i == 0 {
        row := Sub(row, K[0]);
      }
      if i == n - 1 {
        row := Sub(row, K[k - 1]);
      }
      cx, cy, cz := cx + [row.x], cy + [row.y], cz + [row.z];
    }

    var coef := Tridiagonal.CreateCoefficientMatrix(n);
    var sx := Tridiagonal.Solve(coef, cx);
    var sy := Tridiagonal.Solve(coef, cy);
    var sz := Tridiagonal.Solve(coef, cz);

    var inner := seq(n, i requires 0 <= i < n => Vec3(sx[i], sy[i], sz[i]));
    S := [K[0]] + inner + [K[k - 1]];

    SolvedRowsHold(K, cx, cy, cz, sx, sy, sz, inner, S);
  }

  /**
   * Putting the end knots around the per-axis solutions of the system with right-hand side
   * Rhs gives points that satisfy every interior row.
   */
  lemma SolvedRowsHold(K: seq<Vec3>, cx: seq<real>, cy: seq<real>, cz: seq<real>,
                       sx: seq<real>, sy: seq<real>, sz: seq<real>, inner: seq<Vec3>, S: seq<Vec3>)
    requires |K| >= 3
    requires |cx| == |cy| == |cz| == |sx| == |sy| == |sz| == |inner| == |K| - 2
    requires forall r :: 0 <= r < |K| - 2 ==> cx[r] == Rhs(K, r).x && cy[r] == Rhs(K, r).y && cz[r] == Rhs(K, r).z
    requires forall r :: 0 <= r < |K| - 2 ==>
      Tridiagonal.Product(sx, r) == cx[r] && Tridiagonal.Product(sy, r) == cy[r] && Tridiagonal.Product(sz, r) == cz[r]
    requires forall r :: 0 <= r < |K| - 2 ==> inner[r] == Vec3(sx[r], sy[r], sz[r])
    requires S == [K[0]] + inner + [K[|K| - 1]]
    ensures IsSplineControlPoints(K, S)
  {
    var k, n := |K|, |K| - 2;
    forall i | 1 <= i < k - 1
      ensures Add(Add(S[i - 1], Scale(4.0, S[i])), S[i + 1]) == Scale(6.0, K[i])
    {
      var r := i - 1;
      Tridiagonal.ProductIsBand(sx, r);
      Tridiagonal.ProductIsBand(sy, r);
      Tridiagonal.ProductIsBand(sz, r);
      var isFirst, isLast := r == 0, r == n - 1;
      assert S[i] == inner[r];
      assert S[i - 1] == if isFirst then K[0] else inner[r - 1];
      assert S[i + 1] == if isLast then K[k - 1] else inner[r + 1];
      AxisRow(if isFirst then 0.0 else sx[r - 1], sx[r], if isLast then 0.0 else sx[r + 1],
              Tridiagonal.Band(sx, r), cx[r], S[i - 1].x, S[i + 1].x, K[0].x, K[k - 1].x, K[i].x, isFirst, isLast);
      AxisRow(if isFirst then 0.0 else sy[r - 1], sy[r], if isLast then 0.0 else sy[r + 1],
              Tridiagonal.Band(sy, r), cy[r], S[i - 1].y, S[i + 1].y, K[0].y, K[k - 1].y, K[i].y, isFirst, isLast);
      AxisRow(if isFirst then 0.0 else sz[r - 1], sz[r], if isLast then 0.0 else sz[r + 1],
              Tridiagonal.Band(sz, r), cz[r], S[i - 1].z, S[i + 1].z, K[0].z, K[k - 1].z, K[i].z, isFirst, isLast);
    }
  }

  // ---------------------------------------------------------------------------
  // The system has exactly one solution

  /** The multiplier of e[1] in e[i] when e[0] = 0 and every row of the homogeneous system holds. */
  function Growth(i: nat): int {
    if i == 0 then 0 else if i == 1 then 1 else -4 * Growth(i - 1) - Growth(i - 2)
  }

  function Abs(x: int): nat {
    if x < 0 then -x else x
  }

  lemma {:induction false} GrowthNeverVanishes(i: nat)
    requires i >= 1
    ensures Abs(Growth(i)) >= 1 && Abs(Growth(i)) >= Abs(Growth(i - 1))
  {
    if i >= 2 {
      GrowthNeverVanishes(i - 1);
      assert Abs(Growth(i)) >= 4 * Abs(Growth(i - 1)) - Abs(Growth(i - 2));
    }
  }

  /** Row j of the system with diagonal 4, off-diagonal 1 and right-hand side zero. */
  ghost predicate HomogeneousRow(e: seq<real>, j: nat)
    requires 1 <= j < |e| - 1
  {
    e[j - 1] + 4.0 * e[j] + e[j + 1] == 0.0
  }

  lemma {:induction false} HomogeneousAt(e: seq<real>, i: nat)
    requires |e| >= 2 && e[0] == 0.0
    requires forall j :: 1 <= j < |e| - 1 ==> HomogeneousRow(e, j)
    requires i < |e|
    ensures e[i] == e[1] * Growth(i) as real
  {
    if i >= 2 {
      HomogeneousAt(e, i - 1);
      HomogeneousAt(e, i - 2);
      var g, g1, g2 := Growth(i) as real, Growth(i - 1) as real, Growth(i - 2) as real;
      assert g == -4.0 * g1 - g2;
      assert HomogeneousRow(e, i - 1);
      ScaledRecurrence(e[1], e[i - 1], e[i - 2], e[i], g1, g2);
    }
  }

  /** If a and b are v times g1 and g2, the next term of the recurrence is v times the next multiplier. */
  lemma ScaledRecurrence(v: real, a: real, b: real, r: real, g1: real, g2: real)
    requires a == v * g1 && b == v * g2 && b + 4.0 * a + r == 0.0
    ensures r == v * (-4.0 * g1 - g2)
  {
  }

  /** With both ends zero, the homogeneous system (diagonal 4, off-diagonal 1) only has the zero solution. */
  lemma HomogeneousIsZero(e: seq<real>)
    requires |e| >= 2 && e[0] == 0.0 && e[|e| - 1] == 0.0
    requires forall j :: 1 <= j < |e| - 1 ==> HomogeneousRow(e, j)
    ensures forall i :: 0 <= i < |e| ==> e[i] == 0.0
  {
    HomogeneousAt(e, |e| - 1);
    GrowthNeverVanishes(|e| - 1);
    assert e[1] == 0.0;
    forall i | 0 <= i < |e|
      ensures e[i] == 0.0
    {
      HomogeneousAt(e, i);
    }
  }

  /** The spline control points of a knot list are unique, so the solve determines every patch. */
  lemma SplineControlPointsUnique(K: seq<Vec3>, S: seq<Vec3>, T: seq<Vec3>)
    requires IsSplineControlPoints(K, S) && IsSplineControlPoints(K, T)
    ensures S == T
  {
    var k := |K|;
    var ex := seq(k, i requires 0 <= i < k => S[i].x - T[i].x);
    var ey := seq(k, i requires 0 <= i < k => S[i].y - T[i].y);
    var ez := seq(k, i requires 0 <= i < k => S[i].z - T[i].z);
    forall j | 1 <= j < k - 1
      ensures HomogeneousRow(ex, j) && HomogeneousRow(ey, j) && HomogeneousRow(ez, j)
    {
      assert RowHolds(K, S, j) && RowHolds(K, T, j);
      assert Add(Add(S[j - 1], Scale(4.0, S[j])), S[j + 1]) == Add(Add(T[j - 1], Scale(4.0, T[j])), T[j + 1]);
    }
    HomogeneousIsZero(ex);
    HomogeneousIsZero(ey);
    HomogeneousIsZero(ez);
    forall i | 0 <= i < k
      ensures S[i] == T[i]
    {
      assert ex[i] == 0.0 && ey[i] == 0.0 && ez[i] == 0.0;
    }
  }

  // ---------------------------------------------------------------------------
  // The patches

  /**
   * The control points of patch i, as Spline::update computes them: from knot i to knot
   * i + 1, with the inner two a third of the way apart along S[i] .. S[i + 1].
   */
  function Segment(K: seq<Vec3>, S: seq<Vec3>, i: nat): (r: seq<Vec3>)
    requires |S| == |K| && i + 1 < |K|
    ensures |r| == 4 && r[0] == K[i] && r[3] == K[i + 1]
  {
    [K[i],
     Add(Scale(2.0 / 3.0, S[i]), Scale(1.0 / 3.0, S[i + 1])),
     Add(Scale(1.0 / 3.0, S[i]), Scale(2.0 / 3.0, S[i + 1])),
     K[i + 1]]
  }

  /**
   * The two inner control points of patch i lie a third of S[i] .. S[i + 1] apart,
   * symmetric about the midpoint of S[i] and S[i + 1].
   */
  lemma SegmentThirds(K: seq<Vec3>, S: seq<Vec3>, i: nat)
    requires |S| == |K| && i + 1 < |K|
    ensures Sub(Segment(K, S, i)[2], Segment(K, S, i)[1]) == Scale(1.0 / 3.0, Sub(S[i + 1], S[i]))
    ensures Add(Segment(K, S, i)[1], Segment(K, S, i)[2]) == Add(S[i], S[i + 1])
  {
  }

  /** All k - 1 patches, in knot order. */
  function Segments(K: seq<Vec3>, S: seq<Vec3>): seq<seq<Vec3>>
    requires |S| == |K| >= 1
  {
    seq(|K| - 1, i requires 0 <= i < |K| - 1 => Segment(K, S, i))
  }

  function Midpoint(a: Vec3, b: Vec3): Vec3 {
    Scale(0.5, Add(a, b))
  }

  /**
   * k knots give k - 1 patches of four control points; patch i starts at knot i and ends
   * at knot i + 1, so each patch ends where the next one starts.
   */
  lemma SegmentsInterpolate(K: seq<Vec3>, S: seq<Vec3>)
    requires |S| == |K| >= 2
    ensures |Segments(K, S)| == |K| - 1
    ensures forall i :: 0 <= i < |K| - 1 ==>
      |Segments(K, S)[i]| == 4 && Segments(K, S)[i][0] == K[i] && Segments(K, S)[i][3] == K[i + 1]
    ensures forall i :: 0 <= i < |K| - 2 ==> Segments(K, S)[i][3] == Segments(K, S)[i + 1][0]
    ensures Segments(K, S)[0][0] == K[0] && Segments(K, S)[|K| - 2][3] == K[|K| - 1]
  {
    forall i | 0 <= i < |K| - 1
      ensures Segments(K, S)[i] == Segment(K, S, i)
    {
    }
  }

  /** The join at knot i: the midpoint of the inner control points on either side of it. */
  lemma JoinAt(K: seq<Vec3>, S: seq<Vec3>, i: nat)
    requires |S| == |K| && 1 <= i < |K| - 1
    ensures Midpoint(Segment(K, S, i - 1)[2], Segment(K, S, i)[1]) ==
            Scale(1.0 / 6.0, Add(Add(S[i - 1], Scale(4.0, S[i])), S[i + 1]))
  {
  }

  lemma SixthIff(a: Vec3, b: Vec3)
    ensures Scale(1.0 / 6.0, a) == b <==> a == Scale(6.0, b)
  {
    if Scale(1.0 / 6.0, a) == b {
      assert a.x == 6.0 * b.x && a.y == 6.0 * b.y && a.z == 6.0 * b.z;
    }
  }

  /**
   * The patches on either side of interior knot i join with matching first derivatives:
   * the knot is the midpoint of the two inner control points next to it.
   */
  predicate SmoothAt(K: seq<Vec3>, S: seq<Vec3>, i: nat)
    requires |S| == |K| && 1 <= i < |K| - 1
  {
    Midpoint(Segments(K, S)[i - 1][2], Segments(K, S)[i][1]) == K[i]
  }

  lemma SmoothAtIffRow(K: seq<Vec3>, S: seq<Vec3>, i: nat)
    requires |S| == |K| && 1 <= i < |K| - 1
    ensures SmoothAt(K, S, i) <==> RowHolds(K, S, i)
  {
    assert Segments(K, S)[i - 1] == Segment(K, S, i - 1);
    assert Segments(K, S)[i] == Segment(K, S, i);
    JoinAt(K, S, i);
    SixthIff(Add(Add(S[i - 1], Scale(4.0, S[i])), S[i + 1]), K[i]);
  }

  /**
   * With end points S[0] = K[0] and S[k-1] = K[k-1], the patches join smoothly at every
   * interior knot exactly when S solves the system.
   */
  lemma C1JoinsIffSystem(K: seq<Vec3>, S: seq<Vec3>)
    requires |S| == |K| >= 2 && S[0] == K[0] && S[|K| - 1] == K[|K| - 1]
    ensures IsSplineControlPoints(K, S) <==> forall i :: 1 <= i < |K| - 1 ==> SmoothAt(K, S, i)
  {
    forall i | 1 <= i < |K| - 1
      ensures SmoothAt(K, S, i) <==> RowHolds(K, S, i)
    {
      SmoothAtIffRow(K, S, i);
    }
  }

  /** The C1 joins hold for the solution of the system. */
  lemma C1Joins(K: seq<Vec3>, S: seq<Vec3>)
    requires IsSplineControlPoints(K, S)
    ensures forall i :: 1 <= i < |K| - 1 ==> SmoothAt(K, S, i)
  {
    C1JoinsIffSystem(K, S);
  }

  /** What getSplineControlPoints returns for three knots: the single row is 4 S[1] = RhsAsWritten row 0. */
  function ThreeKnotControlPointsAsWritten(K: seq<Vec3>): seq<Vec3>
    requires |K| == 3
  {
    [K[0], Scale(0.25, RhsAsWritten(K, 0)), K[2]]
  }

  /**
   * For the knots (1, 0, 0), (0, 0, 0), (0, 0, 0) the source's single equation
   * 4 S[1] = 6 K[1] - K[2] loses the K[0] term, and the patches it produces do not join
   * smoothly at K[1].
   */
  lemma ThreeKnotRhsAsWrittenBreaksC1(K: seq<Vec3>)
    requires |K| == 3 && K[0] == Vec3(1.0, 0.0, 0.0) && K[1] == Zero && K[2] == Zero
    ensures RhsAsWritten(K, 0) != Rhs(K, 0)
    ensures !IsSplineControlPoints(K, ThreeKnotControlPointsAsWritten(K))
    ensures !SmoothAt(K, ThreeKnotControlPointsAsWritten(K), 1)
  {
    assert RhsAsWritten(K, 0) == Zero;
    assert Rhs(K, 0).x == -1.0;
    var S := ThreeKnotControlPointsAsWritten(K);
    assert S[1] == Zero;
    assert Add(Add(S[0], Scale(4.0, S[1])), S[2]).x == 1.0;
    assert !RowHolds(K, S, 1);
    SmoothAtIffRow(K, S, 1);
  }
}
