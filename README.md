# BSplineCurves3D curve model in Dafny

This project models the core of BSplineCurves3D, a Qt application for drawing 3D B-spline curves. It covers:

- **Points.** Knot points and control points (`Point`).
- **Curves.** The state every curve shares (`Curve`). A `Spline` keeps its knots and rebuilds a list of cubic `Bezier` patches from them when it is dirty.
- **The spline fit.** `Spline::getSplineControlPoints` builds a tridiagonal system and solves it. The model solves it exactly over the reals.
- **Ray picking.** Knots, control points and whole curves are picked along a ray.
- **`CurveManager`.** The curve list and the selection.
- **`Helper`.** JSON save/load of splines and the plane projection.
- **The registries.** `CameraManager`, `LightManager` and `ModelManager`.

Spline and Bezier derive from one abstract class in the source. Here they are one Dafny class, `Curves.Curve`, whose `kind` field says which one an object is. Members that exist on only one of them require that kind.

`QObject::deleteLater` becomes a ghost `destroyed` flag. Deleting a Bezier, whether a spline rebuild deletes it as a patch or CurveManager::removeCurve deletes it, runs its destructor (`Curves.Curve.Destroy`), which records the control points it hands to deleteLater in the ghost list `released`.

Distances are kept squared (`Picking.Distance`), with `Infinite` standing for the float `+infinity` that the loops start from. Comparing squares orders points exactly as comparing the source's `sqrt` values does.

The files, in dependency order:

| file | module | contents |
|---|---|---|
| vectors.dfy | Vectors | QVector3D arithmetic |
| wrappers.dfy | Wrappers | `Option` |
| lists.dfy | Lists | QList::removeAll |
| picking.dfy | Picking | the probe of a point against a ray, the running minimum, the maxDistance gate |
| tridiagonal.dfy | Tridiagonal | createCoefficientMatrix and the solve of the 4-1 tridiagonal system |
| spline_fit.dfy | SplineFit | the right-hand side, the spline control points, the patch segments, C1 continuity |
| curves.dfy | Curves | Point, Curve (Spline and Bezier), update, picking, translate, length |
| curve_manager.dfy | CurveManagement | CurveManager |
| helper.dfy | Helper | JSON documents, saveCurveDataToJson, loadCurveDataFromJson, projectOntoPlane |
| camera_manager.dfy | CameraManagement | CameraManager |
| light_manager.dfy | LightManagement | LightManager |
| model_manager.dfy | ModelManagement | ModelManager |

## Model

| member | source | states |
|---|---|---|
| Lists.RemoveAll | Spline.cpp:17 | removeAll leaves no occurrence of the element, keeps only elements that were there, and never grows the list |
| Lists.RemoveAllCounts | Spline.cpp:17 | removeAll zeroes the element's count and keeps every other element's count (a multiset statement) |
| Lists.RemoveAllAbsent | CurveManager.cpp:28 | removing an element that is not listed leaves the list unchanged |
| Lists.RemoveAllAppend | CurveManager.cpp:28 | removal distributes over concatenation, so the survivors keep their relative order |
| Picking.PrefixStep | Spline.cpp:44-47 | one loop step: the running minimum and the remembered index after one more point |
| Picking.MinDistanceIsMinimum | Spline.cpp:44-47 | the scan's minimum is no larger than any distance and, when finite, is one of them |
| Picking.MinDistanceOfConstant | Bezier.cpp:72-86 | a scan over identical distances ends at that distance |
| Picking.FirstArgMinIsFirst | Spline.cpp:44-47 | the remembered index is the first one attaining the minimum, and exists exactly when the minimum is finite |
| Picking.PickIsCorrect | Spline.cpp:51-52 | after the `minDistance >= maxDistance` gate the result is exactly the correct pick (close enough, no farther than any other, strictly closer than every earlier one), and is null exactly when no point is closer than maxDistance |
| Picking.ProbeAheadOnRay | Spline.cpp:38-43 | a point straight ahead on a unit ray is at distance 0 |
| Picking.ProbeBehindIsInfinite | Spline.cpp:42 | a point behind the ray origin is skipped |
| Tridiagonal.PartialRowIsBand | Spline.cpp:143-168 | a partial row of coef * x only collects the band entries |
| Tridiagonal.ProductIsBand | Spline.cpp:143-168 | row i of coef * x is x[i-1] + 4 x[i] + x[i+1], with missing neighbours counting 0 |
| Tridiagonal.MiddleWrites | Spline.cpp:157-161 | the middle-row loop makes three writes per row i .. n - 2, each in one of those rows and on the band |
| Tridiagonal.CoefficientWritesAsWritten | Spline.cpp:153-165 | createCoefficientMatrix as written makes 4 + 3 (n - 2) writes (4 for n = 1), all on the band, among them coef(0, 1) and coef(n - 1, n - 2) |
| Tridiagonal.MiddleWritesInBounds | Spline.cpp:157-161 | every write of the middle-row loop is inside the matrix |
| Tridiagonal.CoefficientWritesInBoundsIff | Spline.cpp:143-168 | all writes of createCoefficientMatrix as written are in bounds if and only if n >= 2 |
| Tridiagonal.OneByOneMatrixWritesOutOfBounds | Spline.cpp:153-165 | for three knots (n = 1) the writes coef(0, 1) and coef(0, -1) fall outside the 1×1 matrix |
| Tridiagonal.CreateCoefficientMatrix | Spline.cpp:143-168 | an n×n matrix with 4 on the diagonal, 1 beside it and 0 elsewhere, for every n >= 1 |
| Tridiagonal.PivotBound | Spline.cpp:197 | every multiplier of the sweep lies in [0, 1/3], so no pivot vanishes |
| Tridiagonal.FirstRowHolds | Spline.cpp:197 | row 0 of the system follows from the first sweep and substitution steps |
| Tridiagonal.InnerRowHolds | Spline.cpp:197 | an inner row of the system follows from the sweep relations of two neighbouring rows |
| Tridiagonal.Sweep | Spline.cpp:196-197 | the forward elimination establishes the sweep relations for every row |
| Tridiagonal.SweptStep | Spline.cpp:197 | one more elimination step keeps the sweep relations |
| Tridiagonal.Substitute | Spline.cpp:197 | back substitution: x[n-1] = e[n-1] and x[k] + c[k] x[k+1] = e[k] |
| Tridiagonal.SweptSolves | Spline.cpp:197 | the sweep and substitution relations together are the system coef * x = d |
| Tridiagonal.Solve | Spline.cpp:196-197 | the result x solves coef * x = d row by row, as `coef.inverse() * constants` does per column |
| SplineFit.RhsMovesEndKnots | Spline.cpp:184-193 | adding back the end knots moved to the right-hand side of row i gives 6 K[i+1], the right-hand side of the interior equation |
| SplineFit.ThreeKnotRhsAsWrittenKeepsFirstKnot | Spline.cpp:184-187 | with three knots the source's single row is the intended one with K[0] left in |
| SplineFit.RhsAsWrittenAgreesFromFourKnots | Spline.cpp:181-193 | from four knots on, the right-hand side as written equals the intended one |
| SplineFit.AxisRow | Spline.cpp:181-204 | one axis of a solved row, with the end knots moved back, is S[i-1] + 4 S[i] + S[i+1] = 6 K[i] |
| SplineFit.SplineControlPoints | Spline.cpp:170-207 | the result keeps the end knots and solves S[i-1] + 4 S[i] + S[i+1] = 6 K[i] at every interior knot |
| SplineFit.SolvedRowsHold | Spline.cpp:199-204 | end knots around the per-axis solutions satisfy every interior row |
| SplineFit.GrowthNeverVanishes | Spline.cpp:143-168 | the homogeneous recurrence's multipliers never reach zero and never shrink |
| SplineFit.HomogeneousAt | Spline.cpp:143-168 | a homogeneous solution starting at 0 is e[1] times the recurrence multiplier |
| SplineFit.ScaledRecurrence | Spline.cpp:143-168 | one step of the scaled recurrence |
| SplineFit.HomogeneousIsZero | Spline.cpp:143-168 | the coefficient matrix is nonsingular: the homogeneous system has only the zero solution |
| SplineFit.SplineControlPointsUnique | Spline.cpp:170-207 | the spline control points of a knot list are unique, so the solve determines every patch |
| SplineFit.Segment | Spline.cpp:75-78 | patch i has four control points and runs from knot i to knot i + 1 |
| SplineFit.SegmentThirds | Spline.cpp:76-77 | the two inner control points of patch i lie a third of S[i] .. S[i+1] apart, symmetric about the midpoint of S[i] and S[i+1] |
| SplineFit.SegmentsInterpolate | Spline.cpp:73-88 | there are k - 1 patches; neighbouring patches share their end point, and the curve starts at the first knot and ends at the last |
| SplineFit.JoinAt | Spline.cpp:76-77 | at knot i the inner control points on either side have midpoint 2/3 S[i] + 1/6 (S[i-1] + S[i+1]) |
| SplineFit.SmoothAtIffRow | Spline.cpp:73-88 | the patches join with matching tangents at knot i if and only if row i of the system holds |
| SplineFit.C1JoinsIffSystem | Spline.cpp:73-88 | with the end knots fixed, S solves the system if and only if every interior join is C1 |
| SplineFit.C1Joins | Spline.cpp:73-88 | the patches built from the solved control points join with matching tangents at every interior knot |
| SplineFit.ThreeKnotRhsAsWrittenBreaksC1 | Spline.cpp:184-187 | for knots (1,0,0), (0,0,0), (0,0,0) the source's single row loses the K[0] term, and the patches do not join smoothly |
| Curves.NearestPointToRay | Spline.cpp:33-55 | the shared picking loop returns the correct pick among the points, and null exactly when none is closer than maxDistance |
| Curves.NewSegmentPatch | Spline.cpp:74-87 | a new, unselected Bezier patch holding four distinct new unowned control points at the segment's positions |
| Curves.SegmentPatchesAppend | Spline.cpp:73-88 | a patch for the next segment whose objects were not made before extends a list of segment patches |
| Curves.AppendSegmentPatch | Spline.cpp:74-87 | one pass of update's patch loop appends the patch of the next segment, made of new objects, and keeps the list a list of segment patches |
| Curves.NewSegmentPatches | Spline.cpp:73-88 | k - 1 patches, patch i holding segment i; the patches are distinct and new, their control points are new, and no control point belongs to two patches or twice to one |
| Curves.Point.constructor | Point.cpp:4-8 | an unselected point at the origin with the given parent |
| Curves.Point.At | Point.cpp:10-14 | an unselected point at (x, y, z) with the given parent |
| Curves.Point.FromVector | Point.cpp:16-20 | an unselected point at the given position with the given parent |
| Curves.Point.SetSelected | Point.cpp:27-30 | the selected flag becomes the argument |
| Curves.Point.SetPosition | Point.cpp:37-45 | the point moves, and the owning curve, if any, becomes dirty |
| Curves.Curve.Spline | Curve.cpp:3-8 | a new spline: clean, unselected, sector count 128, radius 0.25, no knots or patches |
| Curves.Curve.Bezier | Bezier.cpp:3-5 | a new Bezier curve with the same defaults and no control points |
| Curves.Curve.SetSelected | Curve.cpp:16-18 | the selected flag becomes the argument |
| Curves.Curve.SetDirty | Curve.cpp:24-26 | the dirty flag becomes the argument |
| Curves.Curve.SetMaterial | Curve.cpp:32-34 | the material becomes the argument |
| Curves.Curve.SetSectorCount | Curve.cpp:40-42 | the sector count becomes the argument, without making the curve dirty |
| Curves.Curve.SetRadius | Curve.cpp:48-50 | the radius becomes the argument, without making the curve dirty |
| Curves.Curve.AddControlPoint | Bezier.cpp:15-18 | the point is appended |
| Curves.Curve.InsertControlPoint | Bezier.cpp:26-29 | the point sits at the index, the points before it are unchanged and the later ones move one place right |
| Curves.Curve.RemoveControlPoint | Bezier.cpp:20-24 | every occurrence of the point leaves the list, and the point is deleted |
| Curves.Curve.RemoveControlPointAt | Bezier.cpp:31-36 | the point at the index leaves the list, and that point is deleted |
| Curves.Curve.GetControlPointPositions | Bezier.cpp:43-51 | the control points' positions, in order |
| Curves.Curve.StubsAreZero | Bezier.cpp:53-66 | valueAt, tangentAt and normalAt of a Bezier give the zero vector |
| Curves.Curve.SampleDistances | Bezier.cpp:72-86 | one sampled distance per parameter step |
| Curves.Curve.BezierClosestDistanceToRay | Bezier.cpp:68-89 | the minimum over the samples t = 0, epsilon, 2 epsilon, … up to 1 |
| Curves.Curve.SampledDistanceIsOriginProbe | Bezier.cpp:68-89 | with the stub valueAt, every Bezier is as far from a ray as the origin is |
| Curves.Curve.GetClosestControlPointToRay | Bezier.cpp:91-117 | the correct pick among the control points, and null exactly when none is closer than maxDistance |
| Curves.Curve.Destroy | Bezier.cpp:7-13 | the destructor hands every control point to deleteLater and clears the list |
| Curves.Curve.AddKnotPoint | Spline.cpp:10-14 | the knot is appended, its parent becomes this spline, and the spline is dirty |
| Curves.Curve.RemoveKnotPoint | Spline.cpp:16-23 | every occurrence leaves the list and the knot is deleted; a null knot only makes the spline dirty |
| Curves.Curve.RemoveAllPatches | Spline.cpp:25-31 | every old patch is deleted (destructor run), and the list is empty |
| Curves.Curve.Update | Spline.cpp:57-92 | clean afterwards, and `UpdatedFrom`: every old patch is deleted; at most two knots give one new patch holding the knot objects themselves; otherwise k - 1 distinct new patches, patch i holding segment i of the unique spline control points (of the corrected system for three knots, see Left out) in new control points, none of them in two places |
| Curves.Curve.BuildSharedPatch | Spline.cpp:60-67 | one new patch whose control points are the knot objects |
| Curves.Curve.BuildSegmentPatches | Spline.cpp:69-88 | k - 1 distinct new patches, patch i holding segment i of the spline control points in four new control points, with no control point in two places |
| Curves.Curve.GetClosestKnotPointToRay | Spline.cpp:33-55 | the correct pick among the knots, and null exactly when none is closer than maxDistance; no rebuild |
| Curves.Curve.SplineValueAt | Spline.cpp:94-98 | for every t > -1 on a spline with patches the lookup stays in range, and with the stub patches the value is the zero vector |
| Curves.Curve.SplineTangentAt | Spline.cpp:100-104 | the same lookup for the tangent, which is the zero vector |
| Curves.Curve.Translate | Spline.cpp:106-112 | every knot moves by the translation once per time it is listed, each knot's owner becomes dirty, and so does the spline |
| Curves.Curve.MoveKnot | Spline.cpp:107-109 | one step of translate's loop keeps "moved once per listed occurrence so far" |
| Curves.Curve.SplineClosestDistanceToRay | Spline.cpp:114-128 | a dirty spline is rebuilt exactly as update does (`UpdatedFrom`), a clean one keeps its patches; the result is the minimum patch distance |
| Curves.Curve.PatchesClosestDistance | Spline.cpp:118-127 | the loop's running minimum over the patches, in order |
| Curves.Curve.Length | Spline.cpp:130-141 | a dirty spline is rebuilt exactly as update does (`UpdatedFrom`) and a clean one leaves its patch list and every patch untouched; the result is the sum of the patch lengths |
| Curves.Curve.SumPatchLengths | Spline.cpp:134-140 | the loop's sum over the patches, in order |
| Curves.Curve.KnotPoints | Spline.cpp:209-214 | a dirty spline is rebuilt exactly as update does (`UpdatedFrom`) and a clean one leaves its patch list and every patch untouched; the result is the knot list |
| Curves.Curve.BezierPatches | Spline.cpp:216-221 | a dirty spline is rebuilt exactly as update does (`UpdatedFrom`), so the list is never empty, and a clean one leaves its patch list and every patch untouched; the result is the patch list |
| Curves.Curve.ClosestDistanceToRay | Curve.h:31 | the virtual call: a spline rebuilt when dirty exactly as update does (`UpdatedFrom`); a clean spline and a Bezier leave their patch list, dirty flag and every patch untouched; the result is the curve's ray distance |
| Curves.Curve.RayDistanceIsOriginProbe | Bezier.cpp:53-89 | every curve is as far from a ray as the origin, except a spline with no patches, which is never hit |
| Curves.Trunc | Spline.cpp:95 | `(int) t` truncates toward zero: t lies in [n, n + 1) for t >= 0 and in (n - 1, n] below 0 |
| Curves.PatchIndex | Spline.cpp:95 | qMin((int) t, count - 1): the smaller of the truncation and the last patch index |
| Curves.PatchIndexInRange | Spline.cpp:94-104 | for t > -1 and some patch the index names a patch; for t >= 0, t lies in that patch's unit interval or past the last one, and a t in (-1, 0) gives the first patch |
| Curves.PatchIndexOutOfRange | Spline.cpp:94-104 | as written the index is negative for an empty patch list, or for t <= -1 |
| Curves.PatchDistances | Spline.cpp:120-125 | one distance per patch |
| Curves.PatchDistancesAreOriginProbe | Spline.cpp:114-128 | the minimum over stub patches is the probe of the origin, or Infinite without patches |
| Curves.TotalLengthNonNegative | Spline.cpp:130-141 | with non-negative patch lengths the spline length is non-negative |
| Curves.MoveOnceMore | Spline.cpp:108 | one more move by v after m moves is m + 1 moves |
| Curves.SharedKnotIsDeletedOnRebuild | Spline.cpp:60-65 | with one knot, the second rebuild deletes the patch that holds the knot object, so the knot is handed to deleteLater while the spline still lists it |
| Curves.SampleTaken | Bezier.cpp:72 | sample k is taken exactly when k epsilon <= 1 |
| CurveManagement.CurveDistances | CurveManager.cpp:37-46 | the distance each curve reports, in list order |
| CurveManagement.CurveManager.constructor | CurveManager.cpp:5-7 | no curves and nothing selected |
| CurveManagement.CurveManager.AddCurve | CurveManager.cpp:21-24 | the curve is appended |
| CurveManagement.CurveManager.RemoveCurve | CurveManager.cpp:26-30 | every occurrence leaves the list and the curve is deleted; a Bezier's destructor hands its control points to deleteLater and empties its list |
| CurveManagement.CurveManager.SetSelectedPoint | CurveManager.cpp:100-113 | a new point is selected and flagged, and the old one is unflagged; the same point changes nothing |
| CurveManagement.CurveManager.SetSelectedCurve | CurveManager.cpp:77-93 | a new curve is selected and flagged; the old one and the selected point are unflagged, and the point is cleared; the same curve keeps the selection, the point and both flags; no other listed curve changes its flag, patches, dirty flag or knots, and no patch changes; "only the selected curve is flagged" is preserved |
| CurveManagement.CurveManager.SelectControlPoint | CurveManager.cpp:58-70 | on a selected Bezier, the control point picked along the ray becomes the selected point, gains its flag and the old point loses its own, and every other control point keeps its flag; otherwise null, the selection and every flag unchanged |
| CurveManagement.CurveManager.SelectCurve | CurveManager.cpp:32-56 | the curve returned and selected is the correct pick among the distances the curves report, null when none is closer than maxDistance; every dirty spline was rebuilt clean into distinct new patches of update's count, and every other curve keeps its patch list, its flag and the state of its patches (`RebuiltDirtySplines`); the selection moves as setSelectedCurve moves it: a new pick is flagged, the old curve and point lose their flags and the point is cleared, while the same pick keeps the point and both flags; no other listed curve changes its flag; the flag invariant is kept |
| CurveManagement.CurveManager.ScanCurves | CurveManager.cpp:34-51 | the loop and the maxDistance gate give the correct pick among the distances the curves report afterwards; all splines are clean, and `RebuiltDirtySplines` |
| CurveManagement.CurveManager.AskCurves | CurveManager.cpp:37-46 | the loop's running minimum and first arg-minimum over the distances the curves report, asked in list order; `RebuiltDirtySplines` |
| CurveManagement.CurveManager.Step | CurveManager.cpp:37-46 | one pass of the loop: curve i answers, the strict `<` keeps the first nearest curve, and everything known about the earlier curves is kept |
| CurveManagement.CurveManager.Visit | CurveManager.cpp:37-39 | curve i answers with the distance of the patches it has afterwards; the earlier answers still hold and the rebuild record grows only by new patches |
| CurveManagement.AskTracked | CurveManager.cpp:39 | curve i answers, and the rebuild record and the held patch states still describe the curves afterwards |
| CurveManagement.AskCurve | CurveManager.cpp:39 | a curve's answer: a dirty spline comes back clean with distinct new patches of update's count, any other curve keeps its patch list and flag and every patch untouched, and the distance is the one it then reports |
| CurveManagement.CurveManager.ScannedKept | CurveManager.cpp:37-39 | asking curve i keeps the answers of the curves asked before it, also when a curve is listed twice |
| CurvePasses.RebuildsStep | CurveManager.cpp:37-39 | asking one listed curve keeps the record of which splines were rebuilt and into which new patches |
| CurvePasses.HeldKept | CurveManager.cpp:37-39 | asking one listed curve keeps the state of every patch that is not a dirty spline's |
| CurvePasses.PassDone | CurveManager.cpp:37-46 | once every listed curve has been asked and all splines are clean, the pass rebuilt exactly the dirty splines and left every other curve, its patch list and its patches' state alone (`RebuiltDirtySplines`) |
| CurveManagement.CurveManager.ScannedAll | CurveManager.cpp:37-46 | once every curve has been asked, the recorded distances are the ones the curves report now, and all splines are clean |
| Helper.KnotRoundTrip | Helper.cpp:60-98 | reading back a saved knot object gives the knot's position |
| Helper.CurveRoundTrip | Helper.cpp:53-103 | reading back a saved curve object gives its radius, sector count and knots |
| Helper.DocumentRoundTrip | Helper.cpp:29-124 | loading a saved document gives the saved curves, in order |
| Helper.WideSectorCountReadsAsZero | Helper.cpp:56 | a sector count outside the int range reads back as 0 |
| Helper.NonArrayDocumentHasNoCurves | Helper.cpp:47 | a document that is not an array holds no curves |
| Helper.LoadCurveDataFromJson | Helper.cpp:29-76 | no file gives no curves; otherwise one new, distinct spline per array element, in order, holding the element's data with new knots it owns, dirty exactly when it has knots |
| Helper.LoadCurve | Helper.cpp:51-70 | a new spline holding one element's data |
| Helper.LoadKnot | Helper.cpp:62-69 | one new knot at the element's position is appended to the spline |
| Helper.CurvesData | Helper.cpp:81-106 | the saved state of each listed spline, in order |
| Helper.SaveCurveDataToJson | Helper.cpp:78-124 | the document holds one object per spline, in order, from the splines' data before the call; the data is unchanged; every spline is clean, the dirty ones rebuilt into distinct new patches of update's count, and every other spline keeps its patch list and the state of its patches (`RebuiltDirtySplines`); success is whether the file opens |
| Helper.SavedAll | Helper.cpp:80-106 | once every curve is written, the objects form the document of the data |
| Helper.SaveStep | Helper.cpp:81-106 | one loop step writes curve i, keeps what is already written, and keeps the rebuild record |
| Helper.SaveTracked | Helper.cpp:83-105 | curve i is written from its data before the call and is clean afterwards; the rebuild record and the held patch states still describe the curves |
| Helper.SaveCurve | Helper.cpp:83-105 | the object of one spline from its data before knotPoints rebuilds it; clean afterwards, rebuilt exactly as update does when it was dirty, and otherwise with its patch list and every patch untouched |
| Helper.ProjectOntoPlane | Helper.cpp:141-150 | the projection's signed offset from the plane is the subject's times 1 - n . n, so nothing is left of it for a unit normal |
| Helper.ProjectionIsOnPlane | Helper.cpp:141-150 | for a unit normal the projection lies on the plane |
| Helper.DotSubScale | Helper.cpp:146-147 | n · (v - s n) = n · v - s (n · n) |
| Helper.ProjectionFixesPlanePoints | Helper.cpp:141-150 | a point on the plane projects to itself |
| Helper.ProjectionIsIdempotent | Helper.cpp:141-150 | projecting twice is projecting once |
| CameraManagement.Camera.constructor | Camera.cpp:6-13 | a camera that has heard no events, with the given view direction standing for what getViewDirection (Camera.cpp:82-85) returns |
| CameraManagement.Camera.Handle | CameraManager.cpp:38-39 | the camera records the forwarded event |
| CameraManagement.CameraManager.constructor | CameraManager.cpp:4-7 | no cameras and no active camera |
| CameraManagement.CameraManager.AddCamera | CameraManager.cpp:9-12 | the camera is appended |
| CameraManagement.CameraManager.RemoveCamera | CameraManager.cpp:14-24 | null changes nothing; otherwise every occurrence leaves the list, the camera is deleted and is no longer active, and another active camera stays active |
| CameraManagement.CameraManager.SetActiveCamera | CameraManager.cpp:31-34 | the active camera becomes the argument |
| CameraManagement.CameraManager.Forward | CameraManager.cpp:36-70 | the active camera handles the event; with none, nothing happens |
| CameraManagement.CameraManager.OnKeyPressed | CameraManager.cpp:36-40 | forwarded to the active camera |
| CameraManagement.CameraManager.OnKeyReleased | CameraManager.cpp:42-46 | forwarded to the active camera |
| CameraManagement.CameraManager.OnMousePressed | CameraManager.cpp:48-52 | forwarded to the active camera |
| CameraManagement.CameraManager.OnMouseReleased | CameraManager.cpp:54-58 | forwarded to the active camera |
| CameraManagement.CameraManager.OnMouseMoved | CameraManager.cpp:60-64 | forwarded to the active camera |
| CameraManagement.CameraManager.UpdateActive | CameraManager.cpp:66-70 | forwarded to the active camera |
| CameraManagement.CameraManager.GetViewDirection | CameraManager.cpp:72-78 | the active camera's view direction, or the zero vector without one |
| CameraManagement.RemovedCameraHearsNothing | CameraManager.cpp:14-24 | after the active camera is removed, forwarded events reach no camera |
| LightManagement.LightManager.constructor | LightManager.cpp:4-7 | no lights and no active light |
| LightManagement.LightManager.AddLight | LightManager.cpp:9-12 | the light is appended |
| LightManagement.LightManager.RemoveLight | LightManager.cpp:14-26 | null changes nothing; otherwise every occurrence leaves the list, the light is deleted and is no longer active, and another active light stays active |
| LightManagement.LightManager.SetActiveLight | LightManager.cpp:33-36 | the active light becomes the argument |
| ModelManagement.ModelManager.constructor | ModelManager.cpp:3-5 | no models |
| ModelManagement.ModelManager.AddModel | ModelManager.cpp:7-10 | the model is appended |
| ModelManagement.ModelManager.RemoveModel | ModelManager.cpp:12-19 | null changes nothing; otherwise every occurrence leaves the list and the model is deleted |

## Left out

- Rendering, shaders, OpenGL, the window and controller, Qt signals (`selectedCurveChanged`, `selectedPointChanged`) and the `instance()` singletons. Each manager is an ordinary object.
- Floating point. Coordinates, radii and distances are exact reals, and distances are compared squared instead of through `sqrt`. float rounding, float-to-int conversion and 32-bit overflow are not modelled.
- Helper.SaveCurveDataToJson: the radius is stored as a real, and the float conversion of `r` on load is not modelled.
- The file system and JSON text. Load takes the parsed document, or `None` for a file that cannot be opened. Text that does not parse reaches load as a non-array document. Save returns the document it would write, with a flag saying whether the file opens. `getBytes` is not part of this model.
- Helper.CurveRoundTrip: requires the sector count to fit an int, because QJsonValue::toInt turns any other value into 0 (`WideSectorCountReadsAsZero`).
- `rotateX`, `rotateY`, `rotateZ` and `getDirectionFromScreen`: quaternion and trigonometric arithmetic.
- CameraManagement.Camera: a camera's view direction is a field. The rotation behind Camera::getViewDirection is not modelled, and neither are the FreeCamera and DummyCamera event handlers. A camera records the events forwarded to it.
- Getters that only return a field (`curves`, `selectedCurve`, `selectedPoint`, `activeCamera`, `activeLight`, `lights`, `models`, `selected`, `dirty`, `sectorCount`, `radius`, `position`, `controlPoints`): they are plain field reads of the classes.
- Curves.Curve.Length: Bezier::length is not declared in the source, so a patch's length is a function parameter. The sum is non-negative only for non-negative patch lengths (`TotalLengthNonNegative`).
- Curves.Curve.SplineValueAt: requires t > -1 and a non-empty patch list, because Spline::valueAt and tangentAt do not rebuild and, as written, index patch -1 for an empty list or a t <= -1 (`PatchIndexOutOfRange`). The same holds for Curves.Curve.SplineTangentAt.
- Bezier::valueAt, tangentAt and normalAt are stubs returning the zero vector. The model keeps them so, and all ray distances of curves follow from that (`RayDistanceIsOriginProbe`).
- Curves.Curve.Destroy: the destructor runs when the deleted patch is finally freed. The model runs it at deleteLater, and the point objects' own deletion is recorded through `released`.
- KnotPoint.cpp and ControlPoint: both are typedefs of Point (Point.h:26-27) and are modelled as Point.
- CurveManagement.CurveManager.RemoveCurve: removing the selected curve leaves the selection pointing at the deleted curve, as the source does.
- Eigen's matrix inverse is replaced by an exact tridiagonal solve (SplineFit.SplineControlPoints) of the intended system, which from four knots on is the source's own (`RhsAsWrittenAgreesFromFourKnots`). Eigen's float results are not modelled.
- Curves.Curve.Update: with three knots the patches are built from the corrected right-hand side 6 K[1] - K[0] - K[2] of the first Findings row, not from the source's 6 K[1] - K[2], so they differ from the source's patches (knots (1,0,0), (0,0,0), (0,0,0) give S[1] = (-1/4, 0, 0) where the source gives 0). The accessors that rebuild inherit this.
- Curves.Curve.Spline: Spline.h:39-43 and 53-54 redeclare sectorCount, setSectorCount, radius and setRadius with Spline's own mSectorCount and mRadius, which hide Curve's accessors and which Spline's constructor leaves uninitialised. Helper reads and writes them through `Spline*`, while the renderer reads Curve's through `Curve*`. The model keeps one sector count and one radius per curve (also in Helper.LoadCurve and Helper.SaveCurve), so it does not capture that a loaded spline's values never reach the renderer.
- CurveManagement.CurveManager.RemoveCurve: Qt also deletes a QObject's children with it. A removed spline's knots and its patches from three knots on are its children, and the model does not flag them deleted.
- Curves.Curve.BezierClosestDistanceToRay: requires epsilon > 0. For epsilon <= 0 the sampling loop at Bezier.cpp:72 never ends, which a terminating model cannot express. Spline.cpp:121 calls it with two arguments although Bezier.h:32 declares no default epsilon; the model reads that call as using Curve.h's default 0.01 (`DefaultEpsilon`).
- Curves.SharedKnotIsDeletedOnRebuild: shows that the source, as written, hands a spline's own knots to deleteLater when it rebuilds a one- or two-knot spline twice. No corrected member is proposed, since the source does not say whether the shared patch should copy the knots or not delete them.
- CurveManagement.CurveManager.SelectCurve: for a spline that was dirty, the contract keeps that it is clean, that its patches are distinct and new, and that their number is update's. It does not carry the patch contents (which segment each patch holds, its new control points) or the deletion of the old patches. Curves.Curve.Update and Curves.Curve.ClosestDistanceToRay state those. The same holds for CurveManagement.CurveManager.ScanCurves, CurveManagement.CurveManager.AskCurves and Helper.SaveCurveDataToJson.
- CurvePasses.RebuiltDirtySplines: a patch of an untouched curve keeps its state unless it is also a patch of a dirty spline. The source never lets two curves share a patch, but the model does not state that as an invariant, so such a shared patch is left unconstrained.
- Curves.PatchIndexOutOfRange: shows the index -1 that Spline::valueAt uses as written. No corrected member is proposed; the evaluation members require a patch list and t > -1 instead.

## Findings

| source | as written | input that shows it | evidently intended | confidence | as-written member | corrected member |
|---|---|---|---|---|---|---|
| Spline.cpp:185-186 | with three knots both edge rows are row 0, so `constants(0) = 6 K[1] - K[2]` overwrites `6 K[1] - K[0]` | knots (1,0,0), (0,0,0), (0,0,0) | the single row is 6 K[1] - K[0] - K[2], so the two patches join with matching tangents | not executed | SplineFit.ThreeKnotRhsAsWrittenBreaksC1 | SplineFit.SplineControlPoints |
| Spline.cpp:153-165 | for three knots the 1×1 coefficient matrix also gets `coef(0, 1)` and `coef(0, -1)` written | three knots (n = 1) | skip the off-diagonal writes of a single-row matrix | not executed | Tridiagonal.OneByOneMatrixWritesOutOfBounds | Tridiagonal.CreateCoefficientMatrix |
