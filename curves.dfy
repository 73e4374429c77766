/**
 * The curve model: points, the state every curve shares, Bezier patches and splines.
 *
 * Spline and Bezier derive from one abstract Curve in the source; here they are one class
 * `Curve` whose `kind` says which of the two an object is. The Spline members keep the
 * `knots` and `patches` lists, the Bezier members the `controlPoints` list, and each member
 * that exists on only one of them requires that kind.
 *
 * C++ object addresses are Dafny references. QObject::deleteLater is the ghost flag `destroyed`: the
 * object stays allocated (nothing is freed in Dafny) but is marked for deletion. Deleting a
 * Bezier runs its destructor, modelled by `Destroy`, which hands each control point to
 * deleteLater; those are recorded in the patch's ghost list `released`, so a point is
 * scheduled for deletion when its own flag is set or a destroyed patch released it.
 */
module Curves {
  import opened Vectors
  import opened Wrappers
  import Lists
  import Picking
  import SplineFit

  /** An RGBA colour (QVector4D). */
  datatype Color = Color(r: real, g: real, b: real, a: real)

  /** The lighting parameters of a curve, as the renderer reads them. Material.h is not part of this model. */
  datatype Material = Material(color: Color, ambient: real, diffuse: real, specular: real, shininess: real)

  datatype CurveKind = SplineKind | BezierKind

  /** Curve.cpp's defaults for a new curve's tube. */
  const DefaultSectorCount: int := 128
  const DefaultRadius: real := 0.25

  /** The sampling step Curve.h declares as closestDistanceToRay's default. */
  const DefaultEpsilon: real := 0.01

  /** The positions of a list of points, in order. */
  function Positions(points: seq<Point>): (r: seq<Vec3>)
    reads set p | p in points
    ensures |r| == |points|
    ensures forall i :: 0 <= i < |points| ==> r[i] == points[i].position
  {
    seq(|points|, i reads set p | p in points requires 0 <= i < |points| => points[i].position)
  }

  /** The point a pick names, or null. */
  function PointAt(points: seq<Point>, pick: Option<nat>): Point? {
    if pick.Some? && pick.value < |points| then points[pick.value] else null
  }

  /**
   * The loop Spline::getClosestKnotPointToRay and Bezier::getClosestControlPointToRay share:
   * keep the point with the strictly smallest distance among those ahead of the ray origin,
   * then drop it when that distance is not below maxDistance.
   */
  method NearestPointToRay(points: seq<Point>, origin: Vec3, direction: Vec3, maxDistance: real)
    returns (closest: Point?)
    ensures var ds := Picking.Distances(Positions(points), origin, direction);
            closest == PointAt(points, Picking.Pick(ds, maxDistance))
    ensures var ds := Picking.Distances(Positions(points), origin, direction);
            closest == null <==> forall i :: 0 <= i < |points| ==> !Picking.WithinMax(ds[i], maxDistance)
    ensures var ds := Picking.Distances(Positions(points), origin, direction);
            closest != null ==>
              && Picking.Pick(ds, maxDistance).Some?
              && Picking.IsPick(ds, maxDistance, Picking.Pick(ds, maxDistance).value)
              && closest == points[Picking.Pick(ds, maxDistance).value]
  {
    ghost var ds := Picking.Distances(Positions(points), origin, direction);
    var minDistance := Picking.Infinite;
    closest := null;
    for i := 0 to |points|
      invariant minDistance == Picking.MinDistance(ds[..i])
      invariant closest == PointAt(points, Picking.FirstArgMin(ds[..i]))
    {
      Picking.PrefixStep(ds, i);
      Picking.FirstArgMinIsFirst(ds[..i]);
      var difference := Sub(points[i].position, origin);
      var dot := Dot(difference, direction);
      if dot >= 0.0 {
        var distance := Picking.Finite(NormSq(Sub(difference, Scale(dot, direction))));
        if Picking.Less(distance, minDistance) {
          minDistance := distance;
          closest := points[i];
        }
      }
    }
    assert ds[..|points|] == ds;
    if !Picking.WithinMax(minDistance, maxDistance) {
      closest := null;
    }
    Picking.PickIsCorrect(ds, maxDistance);
    Picking.FirstArgMinIsFirst(ds);
  }

  /**
   * A patch as the k >= 3 branch of update makes it: an unselected Bezier whose control
   * points sit at the segment's positions, in order, unselected and without a parent.
   */
  ghost predicate PatchIsNew(patch: Curve, segment: seq<Vec3>)
    reads patch`selected, patch`destroyed, patch`controlPoints, set q | q in patch.controlPoints
  {
    && patch.kind == BezierKind && !patch.selected && !patch.destroyed
    && |patch.controlPoints| == |segment|
    && forall k :: 0 <= k < |segment| ==>
         && patch.controlPoints[k].position == segment[k]
         && patch.controlPoints[k].parent == null
         && !patch.controlPoints[k].selected && !patch.controlPoints[k].destroyed
  }

  /** No point occurs twice. */
  ghost predicate NoRepeats(qs: seq<Point>) {
    forall m, n :: 0 <= m < n < |qs| ==> qs[m] != qs[n]
  }

  /** No control point object sits in two places of these patches, in one patch or in two. */
  ghost predicate OwnControlPoints(ps: seq<Curve>)
    reads (set p | p in ps)`controlPoints
  {
    forall i, k, j, l ::
      && 0 <= i < |ps| && 0 <= k < |ps[i].controlPoints|
      && 0 <= j < |ps| && 0 <= l < |ps[j].controlPoints|
      && ps[i].controlPoints[k] == ps[j].controlPoints[l]
      ==> i == j && k == l
  }

  /** Appending a patch whose control points are used nowhere else keeps the ownership. */
  lemma OwnControlPointsExtend(ps: seq<Curve>, patch: Curve)
    requires OwnControlPoints(ps) && NoRepeats(patch.controlPoints)
    requires forall i, k :: 0 <= i < |ps| && 0 <= k < |ps[i].controlPoints| ==> ps[i].controlPoints[k] !in patch.controlPoints
    ensures OwnControlPoints(ps + [patch])
  {
    var qs := ps + [patch];
    forall i, k, j, l |
      && 0 <= i < |qs| && 0 <= k < |qs[i].controlPoints|
      && 0 <= j < |qs| && 0 <= l < |qs[j].controlPoints|
      && qs[i].controlPoints[k] == qs[j].controlPoints[l]
      ensures i == j && k == l
    {
      if i < |ps| && j < |ps| {
        assert qs[i] == ps[i] && qs[j] == ps[j];
      } else if i == |ps| && j == |ps| {
        assert qs[i] == patch;
      } else {
        assert false;
      }
    }
  }

  /**
   * The patches so far of update's loop: patch j carries segment j, no patch is listed
   * twice, no control point sits in two places, and all of them are in born.
   */
  ghost predicate SegmentPatches(ps: seq<Curve>, K: seq<Vec3>, S: seq<Vec3>, born: set<object>)
    reads (set p | p in ps)`selected, (set p | p in ps)`destroyed, (set p | p in ps)`controlPoints
    reads set p, q | p in ps && q in p.controlPoints :: q
  {
    && |S| == |K| && |ps| < |K|
    && (forall j :: 0 <= j < |ps| ==> ps[j] in born && PatchIsNew(ps[j], SplineFit.Segment(K, S, j)))
    && (forall j :: 0 <= j < |ps| ==> forall q :: q in ps[j].controlPoints ==> q in born)
    && (forall j, l :: 0 <= j < l < |ps| ==> ps[j] != ps[l])
    && OwnControlPoints(ps)
  }

  /** A new patch whose objects are outside born extends the patches so far. */
  lemma SegmentPatchesAppend(ps: seq<Curve>, patch: Curve, K: seq<Vec3>, S: seq<Vec3>, born: set<object>, born': set<object>)
    requires SegmentPatches(ps, K, S, born) && |ps| + 1 < |K|
    requires PatchIsNew(patch, SplineFit.Segment(K, S, |ps|)) && NoRepeats(patch.controlPoints)
    requires patch !in born && forall q :: q in patch.controlPoints ==> q !in born
    requires born <= born' && patch in born' && forall q :: q in patch.controlPoints ==> q in born'
    ensures SegmentPatches(ps + [patch], K, S, born')
  {
    OwnControlPointsExtend(ps, patch);
    var qs := ps + [patch];
    assert forall j :: 0 <= j < |ps| ==> qs[j] == ps[j];
    assert qs[|ps|] == patch;
  }

  /**
   * update's patch loop: patch i - 1 joins knot i - 1 to knot i. The new patches are
   * gathered in a list that becomes the spline's patch list in one step.
   */
  method NewSegmentPatches(K: seq<Vec3>, S: seq<Vec3>) returns (built: seq<Curve>, ghost born: set<object>)
    requires |S| == |K| >= 1
    ensures |built| == |K| - 1 && SegmentPatches(built, K, S, born)
    ensures forall o :: o in born ==> fresh(o)
  {
    built, born := [], {};
    for i := 1 to |K|
      invariant |built| == i - 1 && SegmentPatches(built, K, S, born)
      invariant forall o :: o in born ==> fresh(o)
    {
      built, born := AppendSegmentPatch(K, S, built, born);
    }
  }

  /** One pass of update's patch loop: the next segment's patch joins the list. */
  method AppendSegmentPatch(K: seq<Vec3>, S: seq<Vec3>, built: seq<Curve>, ghost born: set<object>)
    returns (built': seq<Curve>, ghost born': set<object>)
    requires |S| == |K| && |built| + 1 < |K| && SegmentPatches(built, K, S, born)
    ensures |built'| == |built| + 1 && SegmentPatches(built', K, S, born')
    ensures forall o :: o in born' ==> o in born || fresh(o)
  {
    var patch := NewSegmentPatch(K, S, |built|);
    born' := born + {patch} + set q | q in patch.controlPoints;
    SegmentPatchesAppend(built, patch, K, S, born, born');
    built' := built + [patch];
  }

  /**
   * The body of update's patch loop: patch i runs from knot i to knot i + 1, with the inner
   * control points blended two thirds / one third from the spline control points S.
   */
  method NewSegmentPatch(K: seq<Vec3>, S: seq<Vec3>, i: nat) returns (patch: Curve)
    requires |S| == |K| && i + 1 < |K|
    ensures fresh(patch) && PatchIsNew(patch, SplineFit.Segment(K, S, i))
    ensures forall q :: q in patch.controlPoints ==> fresh(q)
    ensures NoRepeats(patch.controlPoints)
  {
    var segment := SplineFit.Segment(K, S, i);
    patch := new Curve.Bezier();
    var cp0 := new Point.FromVector(segment[0], null);
    var cp1 := new Point.FromVector(segment[1], null);
    var cp2 := new Point.FromVector(segment[2], null);
    var cp3 := new Point.FromVector(segment[3], null);
    patch.AddControlPoint(cp0);
    patch.AddControlPoint(cp1);
    patch.AddControlPoint(cp2);
    patch.AddControlPoint(cp3);
    assert patch.controlPoints == [cp0, cp1, cp2, cp3];
    NoRepeatsFour(cp0, cp1, cp2, cp3);
  }

  lemma NoRepeatsFour(a: Point, b: Point, c: Point, d: Point)
    requires a != b && a != c && a != d && b != c && b != d && c != d
    ensures NoRepeats([a, b, c, d])
  {
    var qs := [a, b, c, d];
    forall m, n | 0 <= m < n < 4
      ensures qs[m] != qs[n]
    {
      if m == 0 {
        assert qs[m] == a;
      } else if m == 1 {
        assert qs[m] == b;
      } else {
        assert qs[m] == c && qs[n] == d;
      }
    }
  }

  class Point {
    var selected: bool
    var position: Vec3
    /** The QObject parent when that parent is a Curve; null for no parent or any other kind. */
    var parent: Curve?
    /** deleteLater has been called on this point. */
    ghost var destroyed: bool

    /** A point at the origin. */
    constructor (parent: Curve?)
      ensures !selected && position == Zero && this.parent == parent && !destroyed
    {
      selected := false;
      position := Vec3(0.0, 0.0, 0.0);
      this.parent := parent;
      destroyed := false;
    }

    /** A point at (x, y, z). */
    constructor At(x: real, y: real, z: real, parent: Curve?)
      ensures !selected && position == Vec3(x, y, z) && this.parent == parent && !destroyed
    {
      selected := false;
      position := Vec3(x, y, z);
      this.parent := parent;
      destroyed := false;
    }

    /** A point at the given position. */
    constructor FromVector(position: Vec3, parent: Curve?)
      ensures !selected && this.position == position && this.parent == parent && !destroyed
    {
      selected := false;
      this.position := position;
      this.parent := parent;
      destroyed := false;
    }

    method SetSelected(newSelected: bool)
      modifies this`selected
      ensures selected == newSelected
    {
      selected := newSelected;
    }

    /** Moving a point makes the curve that owns it stale. */
    method SetPosition(newPosition: Vec3)
      modifies this`position, (if parent == null then {} else {parent})`dirty
      ensures position == newPosition
      ensures parent != null ==> parent.dirty
    {
      position := newPosition;
      if parent != null {
        parent.SetDirty(true);
      }
    }
  }

  class Curve {
    const kind: CurveKind
    var selected: bool
    /** Spline: the patches no longer match the knots. */
    var dirty: bool
    var material: Material
    var sectorCount: int
    var radius: real
    /** Spline: the knots, in order along the curve. */
    var knots: seq<Point>
    /** Spline: the Bezier patches built by the last update. */
    var patches: seq<Curve>
    /** Bezier: the control points, in order. */
    var controlPoints: seq<Point>
    /** deleteLater has been called on this curve. */
    ghost var destroyed: bool
    /** Bezier: the control points the destructor handed to deleteLater. */
    ghost var released: seq<Point>

    /** A new spline: no knots, no patches, clean, with the default tube. */
    constructor Spline()
      ensures kind == SplineKind && !selected && !dirty
      ensures sectorCount == DefaultSectorCount && radius == DefaultRadius
      ensures knots == [] && patches == [] && controlPoints == [] && !destroyed && released == []
    {
      kind := SplineKind;
      selected := false;
      dirty := false;
      sectorCount := DefaultSectorCount;
      radius := DefaultRadius;
      knots := [];
      patches := [];
      controlPoints := [];
      destroyed := false;
      released := [];
    }

    /** A new Bezier curve: no control points, clean, with the default tube. */
    constructor Bezier()
      ensures kind == BezierKind && !selected && !dirty
      ensures sectorCount == DefaultSectorCount && radius == DefaultRadius
      ensures knots == [] && patches == [] && controlPoints == [] && !destroyed && released == []
    {
      kind := BezierKind;
      selected := false;
      dirty := false;
      sectorCount := DefaultSectorCount;
      radius := DefaultRadius;
      knots := [];
      patches := [];
      controlPoints := [];
      destroyed := false;
      released := [];
    }

    // -------------------------------------------------------------------------
    // State every curve has

    method SetSelected(newSelected: bool)
      modifies this`selected
      ensures selected == newSelected
    {
      selected := newSelected;
    }

    method SetDirty(newDirty: bool)
      modifies this`dirty
      ensures dirty == newDirty
    {
      dirty := newDirty;
    }

    method SetMaterial(newMaterial: Material)
      modifies this`material
      ensures material == newMaterial
    {
      material := newMaterial;
    }

    /** Changing the tube does not make the curve stale. */
    method SetSectorCount(newSectorCount: int)
      modifies this`sectorCount
      ensures sectorCount == newSectorCount
    {
      sectorCount := newSectorCount;
    }

    method SetRadius(newRadius: real)
      modifies this`radius
      ensures radius == newRadius
    {
      radius := newRadius;
    }

    // -------------------------------------------------------------------------
    // Bezier

    method AddControlPoint(point: Point)
      requires kind == BezierKind
      modifies this`controlPoints
      ensures controlPoints == old(controlPoints) + [point]
    {
      controlPoints := controlPoints + [point];
    }

    /** Puts the point at the index and moves the later ones one place right. */
    method InsertControlPoint(index: int, point: Point)
      requires kind == BezierKind
      requires 0 <= index <= |controlPoints|
      modifies this`controlPoints
      ensures |controlPoints| == |old(controlPoints)| + 1
      ensures controlPoints[index] == point
      ensures controlPoints[..index] == old(controlPoints)[..index]
      ensures controlPoints[index + 1..] == old(controlPoints)[index..]
    {
      controlPoints := controlPoints[..index] + [point] + controlPoints[index..];
    }

    /** Removes every occurrence of the point and deletes it. */
    method RemoveControlPoint(point: Point)
      requires kind == BezierKind
      modifies this`controlPoints, point`destroyed
      ensures controlPoints == Lists.RemoveAll(old(controlPoints), point)
      ensures point.destroyed
    {
      controlPoints := Lists.RemoveAll(controlPoints, point);
      point.destroyed := true;
    }

    /** Removes the point at the index, whatever else the list holds, and deletes it. */
    method RemoveControlPointAt(index: int)
      requires kind == BezierKind
      requires 0 <= index < |controlPoints|
      modifies this`controlPoints, {controlPoints[index]}`destroyed
      ensures controlPoints == old(controlPoints)[..index] + old(controlPoints)[index + 1..]
      ensures old(controlPoints)[index].destroyed
    {
      var point := controlPoints[index];
      controlPoints := controlPoints[..index] + controlPoints[index + 1..];
      point.destroyed := true;
    }

    method GetControlPointPositions() returns (positions: seq<Vec3>)
      requires kind == BezierKind
      ensures |positions| == |controlPoints|
      ensures forall i :: 0 <= i < |controlPoints| ==> positions[i] == controlPoints[i].position
    {
      positions := [];
      for i := 0 to |controlPoints|
        invariant |positions| == i
        invariant forall j :: 0 <= j < i ==> positions[j] == controlPoints[j].position
      {
        positions := positions + [controlPoints[i].position];
      }
    }

    /** Bezier::valueAt, tangentAt and normalAt are stubs that return the zero vector. */
    function BezierValueAt(t: real): Vec3 {
      Zero
    }

    function BezierTangentAt(t: real): Vec3 {
      Zero
    }

    function BezierNormalAt(t: real): Vec3 {
      Zero
    }

    /** The Bezier stubs give the zero vector at every parameter. */
    lemma StubsAreZero(t: real)
      ensures BezierValueAt(t) == Zero && BezierTangentAt(t) == Zero && BezierNormalAt(t) == Zero
    {
    }

    /** The distances of the first `count` samples t = k * epsilon from the ray, in order. */
    function SampleDistances(count: nat, origin: Vec3, direction: Vec3, epsilon: real): (ds: seq<Picking.Distance>)
      ensures |ds| == count
    {
      if count == 0 then []
      else SampleDistances(count - 1, origin, direction, epsilon)
           + [Picking.Probe(BezierValueAt((count - 1) as real * epsilon), origin, direction)]
    }

    /**
     * Bezier::closestDistanceToRay: the smallest distance over the samples t = 0, epsilon,
     * 2 epsilon, ... while t <= 1, Infinite when no sample is ahead of the ray origin.
     * The float parameter t is the step count k times epsilon.
     */
    method BezierClosestDistanceToRay(origin: Vec3, direction: Vec3, epsilon: real) returns (minDistance: Picking.Distance)
      requires epsilon > 0.0
      ensures minDistance == Picking.MinDistance(SampleDistances(SampleCount(epsilon), origin, direction, epsilon))
    {
      minDistance := Picking.Infinite;
      var k: nat := 0;
      while k as real * epsilon <= 1.0
        invariant k <= SampleCount(epsilon)
        invariant minDistance == Picking.MinDistance(SampleDistances(k, origin, direction, epsilon))
        decreases SampleCount(epsilon) - k
      {
        SampleTaken(epsilon, k);
        var t := k as real * epsilon;
        ghost var ds := SampleDistances(k + 1, origin, direction, epsilon);
        assert ds[..k] == SampleDistances(k, origin, direction, epsilon);
        var difference := Sub(BezierValueAt(t), origin);
        var dot := Dot(difference, direction);
        if dot >= 0.0 {
          var distance := Picking.Finite(NormSq(Sub(difference, Scale(dot, direction))));
          if Picking.Less(distance, minDistance) {
            minDistance := distance;
          }
        }
        k := k + 1;
      }
      SampleTaken(epsilon, k);
    }

    /** Every sample of the stub is the origin, so the sampled distance is the probe of (0, 0, 0). */
    lemma {:induction false} SampledDistanceIsOriginProbe(count: nat, origin: Vec3, direction: Vec3, epsilon: real)
      requires count >= 1
      ensures Picking.MinDistance(SampleDistances(count, origin, direction, epsilon)) == Picking.Probe(Zero, origin, direction)
    {
      var ds := SampleDistances(count, origin, direction, epsilon);
      if count > 1 {
        SampledDistanceIsOriginProbe(count - 1, origin, direction, epsilon);
        assert ds[..count - 1] == SampleDistances(count - 1, origin, direction, epsilon);
      }
    }

    /** Bezier::getClosestControlPointToRay; epsilon is not used. */
    method GetClosestControlPointToRay(origin: Vec3, direction: Vec3, maxDistance: real, epsilon: real)
      returns (closest: Point?)
      requires kind == BezierKind
      ensures var ds := Picking.Distances(Positions(controlPoints), origin, direction);
              closest == PointAt(controlPoints, Picking.Pick(ds, maxDistance))
      ensures var ds := Picking.Distances(Positions(controlPoints), origin, direction);
              closest == null <==> forall i :: 0 <= i < |controlPoints| ==> !Picking.WithinMax(ds[i], maxDistance)
      ensures var ds := Picking.Distances(Positions(controlPoints), origin, direction);
              closest != null ==>
              && Picking.Pick(ds, maxDistance).Some?
              && Picking.IsPick(ds, maxDistance, Picking.Pick(ds, maxDistance).value)
              && closest == controlPoints[Picking.Pick(ds, maxDistance).value]
    {
      closest := NearestPointToRay(controlPoints, origin, direction, maxDistance);
    }

    /**
     * The Bezier destructor, run when a curve deleted with deleteLater goes: every control
     * point is handed to deleteLater and the list is cleared.
     */
    method Destroy()
      modifies this`controlPoints, this`destroyed, this`released
      ensures destroyed && controlPoints == []
      ensures released == old(released) + old(controlPoints)
    {
      released := released + controlPoints;
      controlPoints := [];
      destroyed := true;
    }

    // -------------------------------------------------------------------------
    // Spline

    /** The knot positions, in order. */
    function KnotPositions(): seq<Vec3>
      reads this`knots, set k | k in knots
    {
      Positions(knots)
    }

    /** Appends the knot and makes this spline its parent. */
    method AddKnotPoint(knot: Point)
      requires kind == SplineKind
      modifies this`knots, this`dirty, knot`parent
      ensures knots == old(knots) + [knot]
      ensures knot.parent == this
      ensures dirty
    {
      knots := knots + [knot];
      knot.parent := this;
      dirty := true;
    }

    /** Removes every occurrence of the knot and deletes it; a null knot only marks the spline dirty. */
    method RemoveKnotPoint(knot: Point?)
      requires kind == SplineKind
      modifies this`knots, this`dirty, (if knot == null then {} else {knot})`destroyed
      ensures knot == null ==> knots == old(knots)
      ensures knot != null ==> knots == Lists.RemoveAll(old(knots), knot as Point) && knot.destroyed
      ensures dirty
    {
      if knot != null {
        knots := Lists.RemoveAll(knots, knot as Point);
        knot.destroyed := true;
      }
      dirty := true;
    }

    /** Deletes every patch (which runs its destructor) and empties the list. */
    method RemoveAllPatches()
      requires kind == SplineKind
      modifies this`patches, (set p | p in patches)`controlPoints, (set p | p in patches)`destroyed
      modifies (set p | p in patches)`released
      ensures patches == []
      ensures forall p :: p in old(patches) ==> Discarded(p)
    {
      for i := 0 to |patches|
        invariant patches == old(patches)
        invariant forall p :: p in patches ==> Discarded(p) || unchanged(p)
        invariant forall j :: 0 <= j < i ==> Discarded(patches[j])
      {
        patches[i].Destroy();
      }
      patches := [];
    }

    /** The patch list a rebuild leaves: every patch is new. */
    twostate predicate Rebuilt()
      reads this`patches
    {
      forall p :: p in patches ==> fresh(p)
    }

    /** Every control point of every patch is a new object. */
    twostate predicate NewControlPoints()
      reads this`patches, set p | p in patches
    {
      forall i :: 0 <= i < |patches| ==> forall q :: q in patches[i].controlPoints ==> fresh(q)
    }

    /**
     * What Spline::update leaves behind, given the patch list it found: those patches deleted,
     * and a new list of distinct new patches, which is one patch holding the knot objects
     * themselves for at most two knots and otherwise patch i carrying segment i of the
     * spline control points of the knots.
     */
    twostate predicate UpdatedFrom(previous: seq<Curve>)
      reads this`patches, this`knots, set p | p in previous, set p | p in patches
      reads if |knots| >= 3 then set p, q | p in patches && q in p.controlPoints :: q else {}
      reads set k | k in knots
    {
      && (forall p :: p in previous ==> Discarded(p))
      && Renewed()
    }

    /** The new patch list of UpdatedFrom, apart from what became of the old patches. */
    twostate predicate Renewed()
      reads this`patches, this`knots, set p | p in patches
      reads if |knots| >= 3 then set p, q | p in patches && q in p.controlPoints :: q else {}
      reads set k | k in knots
    {
      && Fitted()
      && Rebuilt()
      && (|knots| >= 3 ==> NewControlPoints())
    }

    /** The patch count and distinctness of Fitted: one patch for at most two knots, else one per pair of neighbours. */
    ghost predicate Counted()
      reads this`patches, this`knots
    {
      && |patches| == (if |knots| <= 2 then 1 else |knots| - 1)
      && forall i, j :: 0 <= i < j < |patches| ==> patches[i] != patches[j]
    }

    /**
     * The shape of the patch list a rebuild makes: distinct patches, one holding the knot
     * objects themselves for at most two knots, and otherwise patch i carrying segment i of
     * the spline control points of the knots, no control point sitting in two places.
     */
    ghost predicate Fitted()
      reads this`patches, this`knots, set p | p in patches
      reads if |knots| >= 3 then set p, q | p in patches && q in p.controlPoints :: q else {}
      reads set k | k in knots
    {
      && (|knots| <= 2 ==>
           && |patches| == 1
           && patches[0].kind == BezierKind && !patches[0].selected && !patches[0].destroyed
           && patches[0].controlPoints == knots)
      && (|knots| >= 3 ==> |patches| == |knots| - 1)
      && (|knots| >= 3 ==> exists S ::
           && SplineFit.IsSplineControlPoints(KnotPositions(), S)
           && forall i {:trigger SplineFit.Segment(KnotPositions(), S, i)} ::
                0 <= i < |patches| ==> PatchIsNew(patches[i], SplineFit.Segment(KnotPositions(), S, i)))
      && (|knots| >= 3 ==> OwnControlPoints(patches))
      && (forall i, j :: 0 <= i < j < |patches| ==> patches[i] != patches[j])
    }

    /**
     * Spline::update: deletes the old patches, then builds one patch holding the knot
     * objects themselves when there are at most two knots, and otherwise one patch per
     * pair of neighbouring knots from the spline control points.
     */
    method Update()
      requires kind == SplineKind
      modifies this`patches, this`dirty
      modifies (set p | p in patches)`controlPoints, (set p | p in patches)`destroyed, (set p | p in patches)`released
      ensures !dirty
      ensures UpdatedFrom(old(patches))
    {
      RemoveAllPatches();
      dirty := false;
      var S := [];
      if |knots| <= 2 {
        BuildSharedPatch();
      } else {
        S := BuildSegmentPatches();
      }
      assert |knots| >= 3 ==> SplineFit.IsSplineControlPoints(KnotPositions(), S);
    }

    /** update with at most two knots: one patch whose control points are the knot objects. */
    method BuildSharedPatch()
      requires patches == []
      modifies this`patches
      ensures |patches| == 1
      ensures fresh(patches[0])
      ensures patches[0].kind == BezierKind && !patches[0].selected && !patches[0].destroyed
      ensures patches[0].controlPoints == knots
    {
      var patch := new Curve.Bezier();
      for i := 0 to |knots|
        modifies {patch}`controlPoints
        invariant patch.controlPoints == knots[..i]
      {
        patch.AddControlPoint(knots[i]);
      }
      patches := patches + [patch];
    }

    /** update with three knots or more: patch i - 1 joins knot i - 1 to knot i. */
    method BuildSegmentPatches() returns (S: seq<Vec3>)
      requires patches == [] && |knots| >= 3
      modifies this`patches
      ensures |patches| == |knots| - 1
      ensures forall i :: 0 <= i < |patches| ==> fresh(patches[i])
      ensures forall i, j :: 0 <= i < j < |patches| ==> patches[i] != patches[j]
      ensures SplineFit.IsSplineControlPoints(KnotPositions(), S)
      ensures forall i :: 0 <= i < |patches| ==> PatchIsNew(patches[i], SplineFit.Segment(KnotPositions(), S, i))
      ensures NewControlPoints() && OwnControlPoints(patches)
    {
      var K := KnotPositions();
      S := SplineFit.SplineControlPoints(K);
      ghost var born;
      patches, born := NewSegmentPatches(K, S);
      assert K == KnotPositions();
    }

    /** Spline::getClosestKnotPointToRay; it reads the knots and does not rebuild. */
    method GetClosestKnotPointToRay(origin: Vec3, direction: Vec3, maxDistance: real) returns (closest: Point?)
      requires kind == SplineKind
      ensures var ds := Picking.Distances(Positions(knots), origin, direction);
              closest == PointAt(knots, Picking.Pick(ds, maxDistance))
      ensures var ds := Picking.Distances(Positions(knots), origin, direction);
              closest == null <==> forall i :: 0 <= i < |knots| ==> !Picking.WithinMax(ds[i], maxDistance)
      ensures var ds := Picking.Distances(Positions(knots), origin, direction);
              closest != null ==>
                && Picking.Pick(ds, maxDistance).Some?
                && Picking.IsPick(ds, maxDistance, Picking.Pick(ds, maxDistance).value)
                && closest == knots[Picking.Pick(ds, maxDistance).value]
    {
      closest := NearestPointToRay(knots, origin, direction, maxDistance);
    }

    /**
     * Spline::valueAt: the patch for global parameter t, at local parameter t - index.
     * It does not rebuild, so it needs a patch list, and t > -1 keeps the index in range:
     * (int) t truncates toward zero, so every t in (-1, 1) looks up the first patch. The
     * patches being stubs, the value is the zero vector.
     */
    function SplineValueAt(t: real): (v: Vec3)
      reads this
      requires kind == SplineKind && t > -1.0 && |patches| > 0
      ensures v == Zero
    {
      var n := PatchIndex(t, |patches|);
      PatchIndexInRange(t, |patches|);
      patches[n].BezierValueAt(t - n as real)
    }

    /** Spline::tangentAt, with the same patch lookup. */
    function SplineTangentAt(t: real): (v: Vec3)
      reads this
      requires kind == SplineKind && t > -1.0 && |patches| > 0
      ensures v == Zero
    {
      var n := PatchIndex(t, |patches|);
      PatchIndexInRange(t, |patches|);
      patches[n].BezierTangentAt(t - n as real)
    }

    /**
     * Spline::translate: every knot moves by the translation once per time it is listed,
     * each move marks its parent curve dirty, and the spline ends up dirty.
     */
    method Translate(translation: Vec3)
      requires kind == SplineKind
      modifies this`dirty, (set k | k in knots)`position, (set k | k in knots && k.parent != null :: k.parent)`dirty
      ensures dirty
      ensures forall k :: k in knots ==>
        k.position == Add(old(k.position), Scale(multiset(knots)[k] as real, translation))
      ensures forall k :: k in knots && k.parent != null ==> k.parent.dirty
    {
      ghost var start := map k | k in knots :: k.position;
      for i := 0 to |knots|
        invariant MovedFrom(start, knots[..i], translation)
        invariant ParentsDirty(i)
      {
        MoveKnot(start, i, translation);
      }
      assert knots[..|knots|] == knots;
      dirty := true;
    }

    /** Each listed knot sits at its start position moved once per time it occurs in done. */
    ghost predicate MovedFrom(start: map<Point, Vec3>, done: seq<Point>, translation: Vec3)
      reads this`knots, set k | k in knots
    {
      forall k :: k in knots ==> k in start && k.position == Add(start[k], Scale(multiset(done)[k] as real, translation))
    }

    /** The parents of the first n knots are marked dirty. */
    ghost predicate ParentsDirty(n: nat)
      reads this`knots, (set k | k in knots)`parent, (set k | k in knots && k.parent != null :: k.parent)`dirty
    {
      forall j :: 0 <= j < n && j < |knots| && knots[j].parent != null ==> knots[j].parent.dirty
    }

    /** One step of translate's loop: knot i moves by the translation and marks its parent. */
    method MoveKnot(ghost start: map<Point, Vec3>, i: nat, translation: Vec3)
      requires i < |knots| && MovedFrom(start, knots[..i], translation) && ParentsDirty(i)
      modifies {knots[i]}`position, (if knots[i].parent == null then {} else {knots[i].parent})`dirty
      ensures MovedFrom(start, knots[..i + 1], translation)
      ensures ParentsDirty(i + 1)
    {
      var point := knots[i];
      assert knots[..i + 1] == knots[..i] + [point];
      MoveOnceMore(start[point], multiset(knots[..i])[point] as real, translation);
      point.SetPosition(Add(point.position, translation));
    }

    /**
     * Spline::closestDistanceToRay: rebuilds a dirty spline, then the smallest distance any
     * patch reports with the default step; its own epsilon is not used.
     */
    method SplineClosestDistanceToRay(origin: Vec3, direction: Vec3, epsilon: real) returns (minDistance: Picking.Distance)
      requires kind == SplineKind
      modifies this`patches, this`dirty
      modifies (set p | p in patches)`controlPoints, (set p | p in patches)`destroyed, (set p | p in patches)`released
      ensures !dirty
      ensures !old(dirty) ==> patches == old(patches)
      ensures old(dirty) ==> |patches| >= 1
      ensures minDistance == Picking.MinDistance(PatchDistances(patches, origin, direction))
      ensures old(dirty) ==> UpdatedFrom(old(patches))
      ensures !old(dirty) ==> forall p :: p in patches ==> unchanged(p)
    {
      if dirty {
        Update();
      }
      minDistance := PatchesClosestDistance(origin, direction);
    }

    /** The loop of Spline::closestDistanceToRay: the running minimum over the patches, in order. */
    method PatchesClosestDistance(origin: Vec3, direction: Vec3) returns (minDistance: Picking.Distance)
      ensures minDistance == Picking.MinDistance(PatchDistances(patches, origin, direction))
    {
      minDistance := Picking.Infinite;
      for i := 0 to |patches|
        invariant minDistance == Picking.MinDistance(PatchDistances(patches[..i], origin, direction))
      {
        var distance := patches[i].BezierClosestDistanceToRay(origin, direction, DefaultEpsilon);
        ghost var before := PatchDistances(patches[..i], origin, direction);
        assert patches[..i + 1][..i] == patches[..i];
        assert PatchDistances(patches[..i + 1], origin, direction) == before + [distance];
        assert (before + [distance])[..i] == before;
        if Picking.Less(distance, minDistance) {
          minDistance := distance;
        }
      }
      assert patches[..|patches|] == patches;
    }

    /**
     * Spline::length: rebuilds a dirty spline, then the sum of the patch lengths. Bezier::length
     * is not declared in the source, so the length of a patch is a parameter.
     */
    method Length(patchLength: Curve -> real) returns (length: real)
      requires kind == SplineKind
      modifies this`patches, this`dirty
      modifies (set p | p in patches)`controlPoints, (set p | p in patches)`destroyed, (set p | p in patches)`released
      ensures !dirty
      ensures !old(dirty) ==> patches == old(patches)
      ensures old(dirty) ==> UpdatedFrom(old(patches))
      ensures length == TotalLength(patches, patchLength)
      ensures !old(dirty) ==> forall p :: p in patches ==> unchanged(p)
    {
      if dirty {
        Update();
      }
      length := SumPatchLengths(patchLength);
    }

    /** The loop of Spline::length: the patch lengths added up in order. */
    method SumPatchLengths(patchLength: Curve -> real) returns (length: real)
      ensures length == TotalLength(patches, patchLength)
    {
      length := 0.0;
      for i := 0 to |patches|
        invariant length == TotalLength(patches[..i], patchLength)
      {
        assert patches[..i + 1][..i] == patches[..i];
        length := length + patchLength(patches[i]);
      }
      assert patches[..|patches|] == patches;
    }

    /** Spline::knotPoints: rebuilds a dirty spline, then the knot list. */
    method KnotPoints() returns (result: seq<Point>)
      requires kind == SplineKind
      modifies this`patches, this`dirty
      modifies (set p | p in patches)`controlPoints, (set p | p in patches)`destroyed, (set p | p in patches)`released
      ensures result == knots
      ensures !dirty
      ensures !old(dirty) ==> patches == old(patches)
      ensures old(dirty) ==> UpdatedFrom(old(patches))
      ensures !old(dirty) ==> forall p :: p in patches ==> unchanged(p)
    {
      if dirty {
        Update();
      }
      result := knots;
    }

    /** Spline::bezierPatches: rebuilds a dirty spline, then the patch list, which a rebuild never leaves empty. */
    method BezierPatches() returns (result: seq<Curve>)
      requires kind == SplineKind
      modifies this`patches, this`dirty
      modifies (set p | p in patches)`controlPoints, (set p | p in patches)`destroyed, (set p | p in patches)`released
      ensures result == patches
      ensures !dirty
      ensures !old(dirty) ==> patches == old(patches)
      ensures old(dirty) ==> UpdatedFrom(old(patches)) && |result| >= 1
      ensures !old(dirty) ==> forall p :: p in patches ==> unchanged(p)
    {
      if dirty {
        Update();
      }
      result := patches;
    }

    // -------------------------------------------------------------------------
    // Either kind

    /** What closestDistanceToRay returns for this curve in its current state. */
    ghost function RayDistance(origin: Vec3, direction: Vec3, epsilon: real): Picking.Distance
      reads this`patches
      requires kind == BezierKind ==> epsilon > 0.0
    {
      CurveDistance(this, patches, origin, direction, epsilon)
    }

    /**
     * Curve::closestDistanceToRay, the virtual call CurveManager makes: a spline rebuilds when
     * dirty, a Bezier curve changes nothing.
     */
    method ClosestDistanceToRay(origin: Vec3, direction: Vec3, epsilon: real) returns (distance: Picking.Distance)
      requires kind == BezierKind ==> epsilon > 0.0
      modifies this`patches, this`dirty
      modifies (set p | p in patches)`controlPoints, (set p | p in patches)`destroyed, (set p | p in patches)`released
      ensures distance == RayDistance(origin, direction, epsilon)
      ensures kind == SplineKind ==> !dirty && (!old(dirty) ==> patches == old(patches))
      ensures kind == BezierKind ==> patches == old(patches) && dirty == old(dirty)
      ensures kind == SplineKind && old(dirty) ==> UpdatedFrom(old(patches))
      ensures !(kind == SplineKind && old(dirty)) ==> forall p :: p in patches ==> unchanged(p)
    {
      if kind == SplineKind {
        distance := SplineClosestDistanceToRay(origin, direction, epsilon);
      } else {
        distance := BezierClosestDistanceToRay(origin, direction, epsilon);
      }
    }

    /**
     * With the stub patches every curve is as far from a ray as the origin (0, 0, 0) is,
     * except a spline that has no patches, which is never hit.
     */
    lemma RayDistanceIsOriginProbe(origin: Vec3, direction: Vec3, epsilon: real)
      requires kind == BezierKind ==> epsilon > 0.0
      ensures RayDistance(origin, direction, epsilon) ==
        if kind == SplineKind && patches == [] then Picking.Infinite else Picking.Probe(Zero, origin, direction)
    {
      if kind == SplineKind {
        PatchDistancesAreOriginProbe(patches, origin, direction);
      } else {
        SampledDistanceIsOriginProbe(SampleCount(epsilon), origin, direction, epsilon);
      }
    }
  }

  /** closestDistanceToRay of a curve of this kind whose patch list is patches. */
  ghost function CurveDistance(curve: Curve, patches: seq<Curve>, origin: Vec3, direction: Vec3, epsilon: real): Picking.Distance
    requires curve.kind == BezierKind ==> epsilon > 0.0
  {
    if curve.kind == SplineKind then Picking.MinDistance(PatchDistances(patches, origin, direction))
    else Picking.MinDistance(curve.SampleDistances(SampleCount(epsilon), origin, direction, epsilon))
  }

  /** A patch after its deleteLater: destroyed, emptied, its old control points released. */
  twostate predicate Discarded(patch: Curve)
    reads patch`destroyed, patch`controlPoints, patch`released
  {
    DiscardedSince(patch, old(patch.controlPoints), old(patch.released))
  }

  /** A patch deleted since it held the control points cps, having released the points released by then. */
  ghost predicate DiscardedSince(patch: Curve, cps: seq<Point>, released: seq<Point>)
    reads patch`destroyed, patch`controlPoints, patch`released
  {
    patch.destroyed && patch.controlPoints == [] && patch.released == released + cps
  }

  /** All patches of the listed curves. */
  ghost function CurvePatches(cs: seq<Curve>): set<Curve>
    reads (set c | c in cs)`patches
  {
    set c, p | c in cs && p in c.patches :: p
  }

  /** The patches of the listed curves that are dirty splines: the ones their next rebuild deletes. */
  ghost function DirtySplinePatches(cs: seq<Curve>): set<Curve>
    reads set c | c in cs
  {
    set c, p | c in cs && c.kind == SplineKind && c.dirty && p in c.patches :: p
  }

  /** What deleting a patch changes: its control points, its deleted flag and the points it handed over. */
  datatype PatchState = PatchState(controlPoints: seq<Point>, destroyed: bool, released: seq<Point>)

  ghost function StateOf(p: Curve): PatchState
    reads p`controlPoints, p`destroyed, p`released
  {
    PatchState(p.controlPoints, p.destroyed, p.released)
  }

  /** (int) t in C++: truncation toward zero. */
  function Trunc(t: real): (n: int)
    ensures t >= 0.0 ==> n as real <= t < n as real + 1.0
    ensures t < 0.0 ==> n as real - 1.0 < t <= n as real
  {
    if t >= 0.0 then t.Floor else -((-t).Floor)
  }

  /** qMin((int) t, count - 1): the patch Spline::valueAt and tangentAt look up, as written. */
  function PatchIndex(t: real, count: int): (n: int)
    ensures n <= Trunc(t) && n <= count - 1
    ensures n == Trunc(t) || n == count - 1
  {
    var n := Trunc(t);
    if n < count - 1 then n else count - 1
  }

  /**
   * For t > -1 and at least one patch the index is a patch. For t >= 0, t lies within that
   * patch's unit interval [n, n + 1), or past it on the last patch; a t in (-1, 0) truncates
   * to the first patch.
   */
  lemma PatchIndexInRange(t: real, count: int)
    requires t > -1.0 && count > 0
    ensures 0 <= PatchIndex(t, count) < count
    ensures t >= 0.0 ==> PatchIndex(t, count) as real <= t
    ensures t < 0.0 ==> PatchIndex(t, count) == 0
    ensures PatchIndex(t, count) == count - 1 || t < PatchIndex(t, count) as real + 1.0
  {
  }

  /** As written, the index is -1 for an empty patch list, and for a negative t such as -1.5. */
  lemma PatchIndexOutOfRange(t: real, count: int)
    requires (count == 0 && t >= 0.0) || (t <= -1.0 && count > 0)
    ensures PatchIndex(t, count) < 0
  {
  }

  /** The distance each patch reports with the default step, in patch order. */
  function PatchDistances(ps: seq<Curve>, origin: Vec3, direction: Vec3): (ds: seq<Picking.Distance>)
    ensures |ds| == |ps|
  {
    if ps == [] then []
    else
      var last := ps[|ps| - 1];
      PatchDistances(ps[..|ps| - 1], origin, direction)
      + [Picking.MinDistance(last.SampleDistances(SampleCount(DefaultEpsilon), origin, direction, DefaultEpsilon))]
  }

  lemma {:induction false} PatchDistancesAreOriginProbe(ps: seq<Curve>, origin: Vec3, direction: Vec3)
    ensures Picking.MinDistance(PatchDistances(ps, origin, direction)) ==
      if ps == [] then Picking.Infinite else Picking.Probe(Zero, origin, direction)
  {
    if ps != [] {
      var last := ps[|ps| - 1];
      var ds := PatchDistances(ps, origin, direction);
      PatchDistancesAreOriginProbe(ps[..|ps| - 1], origin, direction);
      last.SampledDistanceIsOriginProbe(SampleCount(DefaultEpsilon), origin, direction, DefaultEpsilon);
      assert ds[..|ds| - 1] == PatchDistances(ps[..|ps| - 1], origin, direction);
    }
  }

  /** The sum of the patch lengths. */
  function TotalLength(ps: seq<Curve>, patchLength: Curve -> real): real {
    if ps == [] then 0.0 else TotalLength(ps[..|ps| - 1], patchLength) + patchLength(ps[|ps| - 1])
  }

  lemma {:induction false} TotalLengthNonNegative(ps: seq<Curve>, patchLength: Curve -> real)
    requires forall p :: patchLength(p) >= 0.0
    ensures TotalLength(ps, patchLength) >= 0.0
  {
    if ps != [] {
      TotalLengthNonNegative(ps[..|ps| - 1], patchLength);
    }
  }

  /** One more move by v after m moves is m + 1 moves. */
  lemma MoveOnceMore(p: Vec3, m: real, v: Vec3)
    ensures Add(Add(p, Scale(m, v)), v) == Add(p, Scale(m + 1.0, v))
  {
  }

  /**
   * With at most two knots the single patch holds the knot objects, so the next rebuild
   * hands them to deleteLater while the spline still lists them: one knot, two rebuilds.
   */
  method SharedKnotIsDeletedOnRebuild() returns (spline: Curve, knot: Point, patch: Curve)
    ensures spline.kind == SplineKind
    ensures knot in spline.knots
    ensures patch.destroyed && knot in patch.released
  {
    spline := new Curve.Spline();
    knot := new Point.At(1.0, 2.0, 3.0, null);
    spline.AddKnotPoint(knot);
    spline.Update();
    patch := spline.patches[0];
    assert patch in spline.patches && patch.controlPoints == [knot];
    spline.Update();
  }

  /** How many samples t = k * epsilon satisfy t <= 1: the last one is at most 1, the next would pass it. */
  function SampleCount(epsilon: real): (n: nat)
    requires epsilon > 0.0
  {
    (1.0 / epsilon).Floor + 1
  }

  /** Scaling both sides of an inequality by a positive step keeps it. */
  lemma ScaleKeepsOrder(a: real, b: real, epsilon: real)
    requires epsilon > 0.0
    ensures a <= b <==> a * epsilon <= b * epsilon
  {
  }

  /** Sample k is taken exactly when k is below the count. */
  lemma SampleTaken(epsilon: real, k: nat)
    requires epsilon > 0.0
    ensures k < SampleCount(epsilon) <==> k as real * epsilon <= 1.0
  {
    var r := 1.0 / epsilon;
    assert r * epsilon == 1.0;
    assert r > 0.0;
    ScaleKeepsOrder(k as real, r, epsilon);
    assert k < SampleCount(epsilon) <==> k <= r.Floor;
  }
}
