/**
 * The curve registry and the ray-picking selection of curves and control points
 * (CurveManager). The singleton `instance()` becomes an ordinary object, and the
 * `selectedCurveChanged` / `selectedPointChanged` signals are left out.
 */
module CurveManagement {
  import opened Vectors
  import opened Wrappers
  import Lists
  import Picking
  import opened Curves
  import opened CurvePasses

  /** The distance each curve reports with the default step, in list order. */
  ghost function CurveDistances(cs: seq<Curve>, origin: Vec3, direction: Vec3): (ds: seq<Picking.Distance>)
    reads (set c | c in cs)`patches
    ensures |ds| == |cs|
    ensures forall i :: 0 <= i < |cs| ==> ds[i] == cs[i].RayDistance(origin, direction, DefaultEpsilon)
  {
    if cs == [] then []
    else CurveDistances(cs[..|cs| - 1], origin, direction) + [cs[|cs| - 1].RayDistance(origin, direction, DefaultEpsilon)]
  }

  /** The curve at a picked index, or null for no pick. */
  function CurveAt(cs: seq<Curve>, pick: Option<nat>): Curve? {
    if pick.Some? && pick.value < |cs| then cs[pick.value] else null
  }

  /** The point the ray pick over these points chooses, or null. */
  ghost function NearestPoint(points: seq<Point>, origin: Vec3, direction: Vec3, maxDistance: real): Point?
    reads set p | p in points
  {
    PointAt(points, Picking.Pick(Picking.Distances(Positions(points), origin, direction), maxDistance))
  }

  class CurveManager {
    var curves: seq<Curve>
    var selectedCurve: Curve?
    var selectedPoint: Point?

    /** The singleton starts with no curves and nothing selected. */
    constructor ()
      ensures curves == [] && selectedCurve == null && selectedPoint == null
    {
      curves := [];
      selectedCurve := null;
      selectedPoint := null;
    }

    /** The selected curve carries the selected flag, and no other listed curve does. */
    ghost predicate CurveFlagsMatch()
      reads this`curves, this`selectedCurve, (set c | c in curves)`selected
      reads (if selectedCurve == null then {} else {selectedCurve})`selected
    {
      && (selectedCurve != null ==> selectedCurve.selected)
      && forall c :: c in curves ==> (c.selected <==> c == selectedCurve)
    }

    /**
     * selected is what selectCurve must answer, from the distances the curves report now:
     * the first nearest curve when it is closer than maxDistance, else null.
     */
    ghost predicate IsCurvePick(selected: Curve?, origin: Vec3, direction: Vec3, maxDistance: real)
      reads this`curves, (set c | c in curves)`patches
    {
      var ds := CurveDistances(curves, origin, direction);
      && selected == CurveAt(curves, Picking.Pick(ds, maxDistance))
      && (selected == null <==> forall i :: 0 <= i < |curves| ==> !Picking.WithinMax(ds[i], maxDistance))
      && (selected != null ==>
            && Picking.Pick(ds, maxDistance).Some?
            && Picking.IsPick(ds, maxDistance, Picking.Pick(ds, maxDistance).value))
    }

    /** No listed spline waits for a rebuild. */
    ghost predicate AllClean()
      reads this`curves, (set c | c in curves)`dirty
    {
      forall c :: c in curves && c.kind == SplineKind ==> !c.dirty
    }

    method AddCurve(curve: Curve)
      modifies this`curves
      ensures curves == old(curves) + [curve]
    {
      curves := curves + [curve];
    }

    /**
     * removeAll, then deleteLater; deleting a Bezier curve runs its destructor, which hands its
     * control points to deleteLater. The selection is not touched, so a removed selected
     * curve stays selected.
     */
    method RemoveCurve(curve: Curve)
      modifies this`curves, {curve}`destroyed, {curve}`controlPoints, {curve}`released
      ensures curves == Lists.RemoveAll(old(curves), curve)
      ensures curve !in curves && curve.destroyed
      ensures curve.kind == BezierKind ==>
        curve.controlPoints == [] && curve.released == old(curve.released) + old(curve.controlPoints)
      ensures curve.kind == SplineKind ==>
        curve.controlPoints == old(curve.controlPoints) && curve.released == old(curve.released)
    {
      curves := Lists.RemoveAll(curves, curve);
      if curve.kind == BezierKind {
        curve.Destroy();
      } else {
        curve.destroyed := true;
      }
    }

    /**
     * setSelectedPoint: nothing happens when the point is already selected; otherwise the old
     * point loses its flag, the new one gains it, and it becomes the selected point.
     */
    method SetSelectedPoint(point: Point?)
      modifies this`selectedPoint
      modifies (if selectedPoint == null then {} else {selectedPoint})`selected
      modifies (if point == null then {} else {point})`selected
      ensures selectedPoint == point
      ensures point != old(selectedPoint) && point != null ==> point.selected
      ensures point != old(selectedPoint) && old(selectedPoint) != null ==> !old(selectedPoint).selected
      ensures point == old(selectedPoint) ==> old(selectedPoint) == null || selectedPoint.selected == old(selectedPoint.selected)
    {
      if selectedPoint == point {
        return;
      }
      if selectedPoint != null {
        selectedPoint.SetSelected(false);
      }
      if point != null {
        point.SetSelected(true);
      }
      selectedPoint := point;
    }

    /**
     * setSelectedCurve: nothing happens when the curve is already selected; otherwise the flags
     * move from the old curve to the new one and the selected point is cleared. The flag
     * invariant holds afterwards if it held before.
     */
    method SetSelectedCurve(curve: Curve?)
      modifies this`selectedCurve, this`selectedPoint
      modifies (if selectedCurve == null then {} else {selectedCurve})`selected
      modifies (if curve == null then {} else {curve})`selected
      modifies (if selectedPoint == null then {} else {selectedPoint})`selected
      ensures selectedCurve == curve
      ensures curve == old(selectedCurve) ==> selectedPoint == old(selectedPoint)
      ensures curve != old(selectedCurve) ==> selectedPoint == null
      ensures curve != old(selectedCurve) && curve != null ==> curve.selected
      ensures curve != old(selectedCurve) && old(selectedCurve) != null ==> !old(selectedCurve).selected
      ensures curve != old(selectedCurve) && old(selectedPoint) != null ==> !old(selectedPoint).selected
      ensures curve == old(selectedCurve) ==>
        && (curve == null || curve.selected == old(curve.selected))
        && (selectedPoint == null || selectedPoint.selected == old(selectedPoint.selected))
      ensures forall c :: c in curves && c != old(selectedCurve) && c != curve ==> c.selected == old(c.selected)
      ensures forall c :: c in curves ==> c.patches == old(c.patches) && c.dirty == old(c.dirty) && c.knots == old(c.knots)
      ensures forall p :: p in CurvePatches(curves) ==> StateOf(p) == old(StateOf(p))
      ensures old(CurveFlagsMatch()) ==> CurveFlagsMatch()
    {
      if selectedCurve == curve {
        return;
      }
      if selectedCurve != null {
        selectedCurve.SetSelected(false);
      }
      if curve != null {
        curve.SetSelected(true);
      }
      selectedCurve := curve;
      SetSelectedPoint(null);
    }

    /**
     * selectControlPoint: only when the selected curve is a Bezier curve, its control point
     * nearest the ray (closer than maxDistance) becomes the selected point; otherwise null
     * and nothing changes.
     */
    method SelectControlPoint(origin: Vec3, direction: Vec3, maxDistance: real) returns (point: Point?)
      modifies this`selectedPoint
      modifies (if selectedPoint == null then {} else {selectedPoint})`selected
      modifies if selectedCurve == null then {} else (set q | q in selectedCurve.controlPoints)`selected
      ensures selectedCurve == null || selectedCurve.kind != BezierKind ==>
        point == null && selectedPoint == old(selectedPoint)
      ensures selectedCurve == null || selectedCurve.kind != BezierKind ==>
        selectedPoint == null || selectedPoint.selected == old(selectedPoint.selected)
      ensures selectedCurve != null && selectedCurve.kind != BezierKind ==>
        forall q :: q in selectedCurve.controlPoints ==> q.selected == old(q.selected)
      ensures selectedCurve != null && selectedCurve.kind == BezierKind ==>
        selectedPoint == point && point == old(NearestPoint(selectedCurve.controlPoints, origin, direction, maxDistance))
      ensures selectedCurve != null && selectedCurve.kind == BezierKind ==>
        && (point != old(selectedPoint) && point != null ==> point.selected)
        && (point != old(selectedPoint) && old(selectedPoint) != null ==> !old(selectedPoint).selected)
        && (point == old(selectedPoint) && point != null ==> point.selected == old(point.selected))
      ensures selectedCurve != null && selectedCurve.kind == BezierKind ==>
        forall q :: q in selectedCurve.controlPoints && q != point && q != old(selectedPoint) ==> q.selected == old(q.selected)
    {
      var curve := selectedCurve;
      if curve == null || curve.kind != BezierKind {
        return null;
      }
      ghost var expected := NearestPoint(curve.controlPoints, origin, direction, maxDistance);
      point := curve.GetClosestControlPointToRay(origin, direction, maxDistance, DefaultEpsilon);
      assert point == expected;
      SetSelectedPoint(point);
    }

    /**
     * selectCurve: asks every curve for its distance to the ray (a dirty spline rebuilds
     * first), keeps the first strictly nearest one, drops it unless it is closer than
     * maxDistance, and makes the answer the selected curve.
     */
    method SelectCurve(origin: Vec3, direction: Vec3, maxDistance: real) returns (selected: Curve?)
      modifies this`selectedCurve, this`selectedPoint
      modifies (if selectedCurve == null then {} else {selectedCurve})`selected
      modifies (if selectedPoint == null then {} else {selectedPoint})`selected
      modifies (set c | c in curves)`selected, (set c | c in curves)`patches, (set c | c in curves)`dirty
      modifies CurvePatches(curves)`controlPoints, CurvePatches(curves)`destroyed, CurvePatches(curves)`released
      ensures IsCurvePick(selected, origin, direction, maxDistance)
      ensures AllClean()
      ensures RebuiltDirtySplines(curves)
      ensures selectedCurve == selected
      ensures selected == old(selectedCurve) ==> selectedPoint == old(selectedPoint)
      ensures selected != old(selectedCurve) ==> selectedPoint == null
      ensures selected != old(selectedCurve) && selected != null ==> selected.selected
      ensures selected != old(selectedCurve) && old(selectedCurve) != null ==> !old(selectedCurve).selected
      ensures selected != old(selectedCurve) && old(selectedPoint) != null ==> !old(selectedPoint).selected
      ensures selected == old(selectedCurve) ==>
        && (selected == null || selected.selected == old(selected.selected))
        && (selectedPoint == null || selectedPoint.selected == old(selectedPoint.selected))
      ensures forall c :: c in curves && c != old(selectedCurve) && c != selected ==> c.selected == old(c.selected)
      ensures old(CurveFlagsMatch()) ==> CurveFlagsMatch()
    {
      ghost var matched := CurveFlagsMatch();
      selected := ScanCurves(origin, direction, maxDistance);
      // the scan moves no selection and no flag
      assert matched ==> CurveFlagsMatch();
      assert selectedCurve == old(selectedCurve) && selectedPoint == old(selectedPoint);
      assert selectedCurve != null ==> selectedCurve.selected == old(selectedCurve.selected);
      assert selectedPoint != null ==> selectedPoint.selected == old(selectedPoint.selected);
      assert selected != null ==> selected.selected == old(selected.selected);
      label Scanned:
      SetSelectedCurve(selected);
      assert old@Scanned(IsCurvePick(selected, origin, direction, maxDistance) && AllClean());
      assert IsCurvePick(selected, origin, direction, maxDistance) && AllClean();
    }

    /** The loop of selectCurve and its maxDistance gate, before the selection changes. */
    method ScanCurves(origin: Vec3, direction: Vec3, maxDistance: real) returns (selected: Curve?)
      modifies (set c | c in curves)`patches, (set c | c in curves)`dirty
      modifies CurvePatches(curves)`controlPoints, CurvePatches(curves)`destroyed, CurvePatches(curves)`released
      ensures IsCurvePick(selected, origin, direction, maxDistance)
      ensures AllClean()
      ensures selected == null || selected in curves
      ensures RebuiltDirtySplines(curves)
    {
      var minDistance;
      ghost var seen, ds;
      minDistance, selected, seen, ds := AskCurves(origin, direction);
      ScannedAll(seen, ds, origin, direction);
      if !Picking.WithinMax(minDistance, maxDistance) {
        selected := null;
      }
      Picking.PickIsCorrect(ds, maxDistance);
      Picking.FirstArgMinIsFirst(ds);
    }

    /**
     * The loop of selectCurve: every curve reports its distance in list order, and the first
     * strictly nearest one is kept. A dirty spline is rebuilt on the way into a list of new,
     * distinct patches, one per pair of neighbouring knots (one for at most two knots); every
     * other curve keeps its patch list and dirty flag.
     */
    method AskCurves(origin: Vec3, direction: Vec3)
      returns (minDistance: Picking.Distance, selected: Curve?, ghost seen: seq<seq<Curve>>, ghost ds: seq<Picking.Distance>)
      modifies (set c | c in curves)`patches, (set c | c in curves)`dirty
      modifies CurvePatches(curves)`controlPoints, CurvePatches(curves)`destroyed, CurvePatches(curves)`released
      ensures Scanned(|curves|, seen, ds, origin, direction)
      ensures minDistance == Picking.MinDistance(ds)
      ensures selected == CurveAt(curves, Picking.FirstArgMin(ds))
      ensures RebuiltDirtySplines(curves)
    {
      ghost var start := Start(curves);
      ghost var record := start;
      ds, seen := [], [];
      minDistance := Picking.Infinite;
      selected := null;
      for i := 0 to |curves|
        invariant Asked(i, seen, ds, minDistance, selected, record, start, origin, direction)
        invariant forall p :: p in record.born ==> fresh(p)
      {
        minDistance, selected, seen, ds, record := Step(i, origin, direction, minDistance, selected, seen, ds, record, start);
      }
      ScannedAll(seen, ds, origin, direction);
      PassDone(start, record);
    }

    /** Once every curve has been asked, the answers are the distances the curves report now. */
    lemma ScannedAll(seen: seq<seq<Curve>>, ds: seq<Picking.Distance>, origin: Vec3, direction: Vec3)
      requires Scanned(|curves|, seen, ds, origin, direction)
      ensures ds == CurveDistances(curves, origin, direction)
      ensures AllClean()
    {
      forall j | 0 <= j < |curves|
        ensures ds[j] == curves[j].RayDistance(origin, direction, DefaultEpsilon)
      {
        assert curves[j].patches == seen[j];
      }
    }

    /**
     * The first i curves have been asked: seen holds the patch lists they answered with,
     * which they still have, ds their answers, and every spline among them is clean.
     */
    ghost predicate Scanned(i: nat, seen: seq<seq<Curve>>, ds: seq<Picking.Distance>, origin: Vec3, direction: Vec3)
      reads this, (set c | c in curves)`patches, (set c | c in curves)`dirty
    {
      && i <= |curves| && |seen| == i && |ds| == i
      && forall j :: 0 <= j < i ==>
           && curves[j].patches == seen[j]
           && ds[j] == CurveDistance(curves[j], seen[j], origin, direction, DefaultEpsilon)
           && (curves[j].kind == SplineKind ==> !curves[j].dirty)
    }

    /**
     * Where selectCurve's loop stands after i curves: they have been asked, minDistance and
     * selected are the least answer and the first curve giving it, and the record keeps the
     * lists and flags of the start.
     */
    ghost predicate Asked(i: nat, seen: seq<seq<Curve>>, ds: seq<Picking.Distance>, minDistance: Picking.Distance,
                          selected: Curve?, r: Record, start: Record, origin: Vec3, direction: Vec3)
      reads this, set c | c in curves
      reads r.held.Keys`controlPoints, r.held.Keys`destroyed, r.held.Keys`released
    {
      && Scanned(i, seen, ds, origin, direction)
      && r.curves == curves && Rebuilds(r) && Held(r) && r == start.(born := r.born)
      && minDistance == Picking.MinDistance(ds)
      && selected == CurveAt(curves, Picking.FirstArgMin(ds))
    }

    /** One pass of selectCurve's loop: curve i answers and the nearest answer so far is kept. */
    method Step(i: nat, origin: Vec3, direction: Vec3, minDistance: Picking.Distance, selected: Curve?,
                ghost seen: seq<seq<Curve>>, ghost ds: seq<Picking.Distance>, ghost r: Record, ghost start: Record)
      returns (minDistance': Picking.Distance, selected': Curve?, ghost seen': seq<seq<Curve>>,
               ghost ds': seq<Picking.Distance>, ghost r': Record)
      requires i < |curves| && Asked(i, seen, ds, minDistance, selected, r, start, origin, direction)
      modifies {curves[i]}`patches, {curves[i]}`dirty
      modifies (set p | p in curves[i].patches)`controlPoints, (set p | p in curves[i].patches)`destroyed
      modifies (set p | p in curves[i].patches)`released
      ensures Asked(i + 1, seen', ds', minDistance', selected', r', start, origin, direction)
      ensures forall p :: p in r'.born ==> p in r.born || fresh(p)
    {
      var curve := curves[i];
      var distance;
      distance, r' := Visit(i, origin, direction, seen, ds, r);
      Picking.FirstArgMinIsFirst(ds);
      ds' := ds + [distance];
      seen' := seen + [curve.patches];
      assert ds'[..i] == ds;
      minDistance', selected' := minDistance, selected;
      if Picking.Less(distance, minDistance) {
        minDistance' := distance;
        selected' := curve;
      }
      assert minDistance' == Picking.MinDistance(ds') && selected' == CurveAt(curves, Picking.FirstArgMin(ds'));
    }

    /** One step of selectCurve's loop: curve i reports its distance, rebuilding first when it is a dirty spline. */
    method Visit(i: nat, origin: Vec3, direction: Vec3, ghost seen: seq<seq<Curve>>, ghost ds: seq<Picking.Distance>,
                 ghost r: Record)
      returns (distance: Picking.Distance, ghost r': Record)
      requires i < |curves|
      requires Scanned(i, seen, ds, origin, direction) && r.curves == curves && Rebuilds(r) && Held(r)
      modifies {curves[i]}`patches, {curves[i]}`dirty
      modifies (set p | p in curves[i].patches)`controlPoints, (set p | p in curves[i].patches)`destroyed
      modifies (set p | p in curves[i].patches)`released
      ensures Scanned(i + 1, seen + [curves[i].patches], ds + [distance], origin, direction)
      ensures Rebuilds(r') && Held(r') && r' == r.(born := r'.born)
      ensures forall p :: p in r'.born ==> p in r.born || fresh(p)
    {
      distance, r' := AskTracked(curves[i], i, origin, direction, r);
      ScannedKept(seen, i, ds, origin, direction);
    }

    /**
     * Asking curve i, which changes no other curve's patch list or flag, keeps what the
     * curves asked before it answered; a curve listed twice was already clean, so asking it
     * again kept its patches.
     */
    twostate lemma ScannedKept(seen: seq<seq<Curve>>, new i: nat, new ds: seq<Picking.Distance>, new origin: Vec3,
                               new direction: Vec3)
      requires curves == old(curves) && i < |curves| && old(Scanned(i, seen, ds, origin, direction))
      requires forall c :: c in curves && c != curves[i] ==> c.patches == old(c.patches) && c.dirty == old(c.dirty)
      requires !(curves[i].kind == SplineKind && old(curves[i].dirty)) ==>
        curves[i].patches == old(curves[i].patches) && curves[i].dirty == old(curves[i].dirty)
      ensures Scanned(i, seen, ds, origin, direction)
    {
      forall j | 0 <= j < i
        ensures curves[j].patches == seen[j]
        ensures curves[j].kind == SplineKind ==> !curves[j].dirty
      {
        assert old(curves[j].patches) == seen[j] && (curves[j].kind == SplineKind ==> !old(curves[j].dirty));
      }
    }
  }

  /**
   * One curve's answer to selectCurve, as its loop uses it: the distance it reports with the
   * patches it has afterwards, and, when it was a dirty spline, a clean list of distinct
   * new patches of the count update makes; any other curve keeps its list and flag.
   */
  method AskCurve(curve: Curve, origin: Vec3, direction: Vec3) returns (distance: Picking.Distance)
    modifies curve`patches, curve`dirty
    modifies (set p | p in curve.patches)`controlPoints, (set p | p in curve.patches)`destroyed
    modifies (set p | p in curve.patches)`released
    ensures distance == CurveDistance(curve, curve.patches, origin, direction, DefaultEpsilon)
    ensures curve.kind == SplineKind ==> !curve.dirty
    ensures !(curve.kind == SplineKind && old(curve.dirty)) ==>
      curve.patches == old(curve.patches) && curve.dirty == old(curve.dirty)
    ensures curve.kind == SplineKind && old(curve.dirty) ==> curve.Counted() && curve.Rebuilt()
    ensures !(curve.kind == SplineKind && old(curve.dirty)) ==> forall p :: p in curve.patches ==> unchanged(p)
  {
    distance := curve.ClosestDistanceToRay(origin, direction, DefaultEpsilon);
    if curve.kind == SplineKind && old(curve.dirty) {
      assert curve.Fitted();
    }
  }

  /** Curve i of the record answers, and the record follows what asking it did to it. */
  method AskTracked(curve: Curve, i: nat, origin: Vec3, direction: Vec3, ghost r: Record)
    returns (distance: Picking.Distance, ghost r': Record)
    requires i < |r.curves| && curve == r.curves[i] && Rebuilds(r) && Held(r)
    modifies curve`patches, curve`dirty
    modifies (set p | p in curve.patches)`controlPoints, (set p | p in curve.patches)`destroyed
    modifies (set p | p in curve.patches)`released
    ensures distance == CurveDistance(curve, curve.patches, origin, direction, DefaultEpsilon)
    ensures curve.kind == SplineKind ==> !curve.dirty
    ensures !(curve.kind == SplineKind && old(curve.dirty)) ==>
      curve.patches == old(curve.patches) && curve.dirty == old(curve.dirty)
    ensures Rebuilds(r') && Held(r') && r' == r.(born := r'.born)
    ensures forall p :: p in r'.born ==> p in r.born || fresh(p)
  {
    distance := AskCurve(curve, origin, direction);
    r' := r.(born := r.born + set p | p in curve.patches && p !in r.made && p !in r.born);
    RebuildsStep(r, i, r'.born);
    HeldKept(r, i);
  }
}
