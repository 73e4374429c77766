/**
 * Helper: the curve file format and the projection onto a plane.
 *
 * A curve file is a JSON array with one object per spline,
 *   { "r": radius, "sector_count": sectors, "knots": [ { "position": { "x", "y", "z" } } ... ] }.
 * Reading and writing the file and the JSON text are not part of this model: load receives
 * the parsed document, or None when the file cannot be opened, and save returns the document
 * it would write together with whether the file could be opened.
 */
module Helper {
  import opened Vectors
  import opened Wrappers
  import opened Curves
  import opened CurvePasses

  // ---------------------------------------------------------------------------
  // JSON values, as QJsonValue holds them

  /** A JSON value; numbers are doubles in Qt and reals here. Undefined is a missing member. */
  datatype Json =
    | Null
    | Undefined
    | Bool(b: bool)
    | Number(n: real)
    | String(s: string)
    | Array(elements: seq<Json>)
    | Object(members: map<string, Json>)

  /** QJsonObject::operator[] on a key: the member, or Undefined when there is none. */
  function Member(members: map<string, Json>, key: string): Json {
    if key in members then members[key] else Undefined
  }

  /** QJsonValue::toDouble(): the number, or 0 for anything else. */
  function ToDouble(v: Json): real {
    if v.Number? then v.n else 0.0
  }

  const IntMin: int := -0x8000_0000
  const IntMax: int := 0x7fff_ffff

  /** A C++ int holds the value. */
  predicate IsInt(i: int) {
    IntMin <= i <= IntMax
  }

  /** QJsonValue::toInt(): a number that is a whole value an int can hold, else 0. */
  function ToInt(v: Json): int {
    if v.Number? && v.n == v.n.Floor as real && IsInt(v.n.Floor) then v.n.Floor else 0
  }

  /** QJsonValue::toArray(): the elements of an array, else none. */
  function ToArray(v: Json): seq<Json> {
    if v.Array? then v.elements else []
  }

  /** QJsonValue::toObject(): the members of an object, else none. */
  function ToObject(v: Json): map<string, Json> {
    if v.Object? then v.members else map[]
  }

  // ---------------------------------------------------------------------------
  // What the file keeps of a curve

  /** The saved state of one spline: radius, sector count and the knot positions in order. */
  datatype CurveData = CurveData(radius: real, sectorCount: int, knots: seq<Vec3>)

  /** The state of a spline object that save writes out. */
  function DataOf(c: Curve): CurveData
    reads c`radius, c`sectorCount, c`knots, set k | k in c.knots
  {
    CurveData(c.radius, c.sectorCount, Positions(c.knots))
  }

  /** The knot object save writes: { "position": { "x", "y", "z" } }. */
  function KnotJson(p: Vec3): Json {
    Object(map["position" := Object(map["x" := Number(p.x), "y" := Number(p.y), "z" := Number(p.z)])])
  }

  /** The position load reads from a knot element, with 0 for whatever is missing. */
  function KnotFromJson(v: Json): Vec3 {
    var position := ToObject(Member(ToObject(v), "position"));
    Vec3(ToDouble(Member(position, "x")), ToDouble(Member(position, "y")), ToDouble(Member(position, "z")))
  }

  /** The curve object save writes. */
  function CurveJson(c: CurveData): Json {
    Object(map[
      "r" := Number(c.radius),
      "sector_count" := Number(c.sectorCount as real),
      "knots" := Array(seq(|c.knots|, i requires 0 <= i < |c.knots| => KnotJson(c.knots[i])))])
  }

  /** The curve load builds from an array element, with defaults for whatever is missing. */
  function CurveFromJson(v: Json): CurveData {
    var curve := ToObject(v);
    var knots := ToArray(Member(curve, "knots"));
    CurveData(ToDouble(Member(curve, "r")), ToInt(Member(curve, "sector_count")),
              seq(|knots|, i requires 0 <= i < |knots| => KnotFromJson(knots[i])))
  }

  /** The whole document save writes for these curves. */
  function DocumentJson(curves: seq<CurveData>): Json {
    Array(seq(|curves|, i requires 0 <= i < |curves| => CurveJson(curves[i])))
  }

  /** What load reads from a document: one curve per element of a top-level array. */
  function DocumentCurves(document: Json): seq<CurveData> {
    var elements := ToArray(document);
    seq(|elements|, i requires 0 <= i < |elements| => CurveFromJson(elements[i]))
  }

  lemma KnotRoundTrip(p: Vec3)
    ensures KnotFromJson(KnotJson(p)) == p
  {
    var position := ToObject(Member(ToObject(KnotJson(p)), "position"));
    assert Member(position, "x") == Number(p.x);
    assert Member(position, "y") == Number(p.y);
    assert Member(position, "z") == Number(p.z);
  }

  /** Reading back a written curve gives the same radius, sector count and knots. */
  lemma CurveRoundTrip(c: CurveData)
    requires IsInt(c.sectorCount)
    ensures CurveFromJson(CurveJson(c)) == c
  {
    var members := ToObject(CurveJson(c));
    assert Member(members, "r") == Number(c.radius);
    assert Member(members, "sector_count") == Number(c.sectorCount as real);
    assert (c.sectorCount as real).Floor == c.sectorCount;
    var knots := ToArray(Member(members, "knots"));
    assert |knots| == |c.knots|;
    forall i | 0 <= i < |knots|
      ensures KnotFromJson(knots[i]) == c.knots[i]
    {
      KnotRoundTrip(c.knots[i]);
    }
  }

  /** Reading back a written document gives the same curves, in order. */
  lemma DocumentRoundTrip(curves: seq<CurveData>)
    requires forall i :: 0 <= i < |curves| ==> IsInt(curves[i].sectorCount)
    ensures DocumentCurves(DocumentJson(curves)) == curves
  {
    forall i | 0 <= i < |curves|
      ensures CurveFromJson(CurveJson(curves[i])) == curves[i]
    {
      CurveRoundTrip(curves[i]);
    }
  }

  /** A sector count an int cannot hold is written as a number that reads back as 0. */
  lemma WideSectorCountReadsAsZero(c: CurveData)
    requires !IsInt(c.sectorCount)
    ensures CurveFromJson(CurveJson(c)).sectorCount == 0
  {
    var members := ToObject(CurveJson(c));
    assert Member(members, "sector_count") == Number(c.sectorCount as real);
    assert (c.sectorCount as real).Floor == c.sectorCount;
  }

  /** A document that is not an array, such as the null document of unparsable text, holds no curves. */
  lemma NonArrayDocumentHasNoCurves(document: Json)
    requires !document.Array?
    ensures DocumentCurves(document) == []
  {
  }

  // ---------------------------------------------------------------------------
  // Loading

  /**
   * A spline as load leaves it: it holds the data, has no patches yet, is dirty exactly when
   * it got a knot, and it and its knots are unselected and the knots belong to it.
   */
  ghost predicate Loaded(curve: Curve, data: CurveData)
    reads curve, set k | k in curve.knots
  {
    && curve.kind == SplineKind && !curve.selected && curve.patches == []
    && DataOf(curve) == data
    && (curve.dirty <==> |curve.knots| > 0)
    && forall k :: k in curve.knots ==> !k.selected && k.parent == curve
  }

  /**
   * loadCurveDataFromJson: a file that cannot be opened gives no curves; otherwise one new
   * spline per element of the document's array, in order.
   */
  method LoadCurveDataFromJson(file: Option<Json>) returns (curves: seq<Curve>)
    ensures file.None? ==> curves == []
    ensures file.Some? ==> |curves| == |DocumentCurves(file.value)|
    ensures file.Some? ==> forall i :: 0 <= i < |curves| ==> Loaded(curves[i], DocumentCurves(file.value)[i])
    ensures forall i :: 0 <= i < |curves| ==> fresh(curves[i])
    ensures forall i, j :: 0 <= i < j < |curves| ==> curves[i] != curves[j]
    ensures forall i, k :: 0 <= i < |curves| && k in curves[i].knots ==> fresh(k)
  {
    if file.None? {
      return [];
    }
    var elements := ToArray(file.value);
    curves := [];
    for i := 0 to |elements|
      invariant |curves| == i
      invariant forall j :: 0 <= j < i ==> fresh(curves[j]) && Loaded(curves[j], CurveFromJson(elements[j]))
      invariant forall j, l :: 0 <= j < l < i ==> curves[j] != curves[l]
      invariant forall j, k :: 0 <= j < i && k in curves[j].knots ==> fresh(k)
    {
      var curve := LoadCurve(elements[i]);
      curves := curves + [curve];
    }
  }

  /** The body of load's loop: a new spline from one array element, its knots appended in order. */
  method LoadCurve(element: Json) returns (curve: Curve)
    ensures fresh(curve) && Loaded(curve, CurveFromJson(element))
    ensures forall k :: k in curve.knots ==> fresh(k)
  {
    curve := new Curve.Spline();
    var curveObject := ToObject(element);
    var knotsArray := ToArray(Member(curveObject, "knots"));
    var radius := ToDouble(Member(curveObject, "r"));
    var sectorCount := ToInt(Member(curveObject, "sector_count"));
    curve.SetRadius(radius);
    curve.SetSectorCount(sectorCount);
    ghost var loaded: seq<Vec3> := [];
    for j := 0 to |knotsArray|
      invariant Loaded(curve, CurveData(radius, sectorCount, loaded))
      invariant |loaded| == j && forall l :: 0 <= l < j ==> loaded[l] == KnotFromJson(knotsArray[l])
      invariant forall k :: k in curve.knots ==> fresh(k)
    {
      LoadKnot(curve, knotsArray[j], loaded);
      loaded := loaded + [KnotFromJson(knotsArray[j])];
    }
  }

  /** The body of load's inner loop: a new knot from one element of "knots", appended to the spline. */
  method LoadKnot(curve: Curve, element: Json, ghost loaded: seq<Vec3>)
    requires Loaded(curve, CurveData(curve.radius, curve.sectorCount, loaded))
    modifies curve`knots, curve`dirty
    ensures Loaded(curve, CurveData(old(curve.radius), old(curve.sectorCount), loaded + [KnotFromJson(element)]))
    ensures curve.knots == old(curve.knots) + [curve.knots[|curve.knots| - 1]]
    ensures fresh(curve.knots[|curve.knots| - 1])
  {
    var knotObject := ToObject(element);
    var position := ToObject(Member(knotObject, "position"));
    var knot := new Point.At(ToDouble(Member(position, "x")), ToDouble(Member(position, "y")),
                             ToDouble(Member(position, "z")), null);
    curve.AddKnotPoint(knot);
  }

  // ---------------------------------------------------------------------------
  // Saving

  /** The saved state of each listed spline, in order. */
  function CurvesData(cs: seq<Curve>): (ds: seq<CurveData>)
    reads (set c | c in cs)`radius, (set c | c in cs)`sectorCount, (set c | c in cs)`knots
    reads set c, k | c in cs && k in c.knots :: k
    ensures |ds| == |cs|
    ensures forall i :: 0 <= i < |cs| ==> ds[i] == DataOf(cs[i])
  {
    if cs == [] then [] else CurvesData(cs[..|cs| - 1]) + [DataOf(cs[|cs| - 1])]
  }

  /**
   * saveCurveDataToJson: the document holds one object per spline, in list order, and the
   * answer is whether the file could be opened. Reading the knots rebuilds every dirty
   * spline, so all of them are clean afterwards, and leaves the other splines and their
   * patches alone; what is written is not changed by that.
   */
  method SaveCurveDataToJson(curves: seq<Curve>, fileOpens: bool) returns (saved: bool, document: Json)
    requires forall c :: c in curves ==> c.kind == SplineKind
    modifies (set c | c in curves)`patches, (set c | c in curves)`dirty
    modifies CurvePatches(curves)`controlPoints, CurvePatches(curves)`destroyed, CurvePatches(curves)`released
    ensures document == DocumentJson(old(CurvesData(curves)))
    ensures CurvesData(curves) == old(CurvesData(curves))
    ensures forall c :: c in curves ==> !c.dirty
    ensures RebuiltDirtySplines(curves)
    ensures saved == fileOpens
  {
    ghost var data := CurvesData(curves);
    ghost var start := Start(curves);
    ghost var record := start;
    var curvesArray: seq<Json> := [];
    for i := 0 to |curves|
      invariant DataKept(curves, data)
      invariant SavedPrefix(curves, data, curvesArray, i)
      invariant Rebuilds(record) && Held(record) && record == start.(born := record.born)
      invariant forall p :: p in record.born ==> fresh(p)
    {
      var curveObject;
      curveObject, record := SaveStep(curves, i, data, curvesArray, record);
      curvesArray := curvesArray + [curveObject];
    }
    SavedAll(curves, data, curvesArray);
    PassDone(start, record);
    document := Array(curvesArray);
    saved := fileOpens;
  }

  /** Once every curve is written, the objects make up the document of the data, and all curves are clean. */
  lemma SavedAll(curves: seq<Curve>, data: seq<CurveData>, curvesArray: seq<Json>)
    requires DataKept(curves, data) && SavedPrefix(curves, data, curvesArray, |curves|)
    ensures Array(curvesArray) == DocumentJson(data)
    ensures CurvesData(curves) == data
    ensures forall c :: c in curves ==> !c.dirty
  {
    assert curvesArray == seq(|data|, i requires 0 <= i < |data| => CurveJson(data[i]));
  }

  /** Every listed curve still holds the data it held when save started. */
  ghost predicate DataKept(curves: seq<Curve>, data: seq<CurveData>)
    reads (set c | c in curves)`radius, (set c | c in curves)`sectorCount, (set c | c in curves)`knots
    reads set c, k | c in curves && k in c.knots :: k
  {
    && |data| == |curves|
    && forall j :: 0 <= j < |curves| ==> DataOf(curves[j]) == data[j]
  }

  /** The first i curves are written and clean. */
  ghost predicate SavedPrefix(curves: seq<Curve>, data: seq<CurveData>, curvesArray: seq<Json>, i: nat)
    reads (set c | c in curves)`dirty
  {
    && i <= |curves| && |data| == |curves| && |curvesArray| == i
    && forall j :: 0 <= j < i ==> curvesArray[j] == CurveJson(data[j]) && !curves[j].dirty
  }

  /** One step of save's loop: curve i is written. */
  method SaveStep(curves: seq<Curve>, i: nat, ghost data: seq<CurveData>, curvesArray: seq<Json>, ghost r: Record)
    returns (curveObject: Json, ghost r': Record)
    requires i < |curves| && curves[i].kind == SplineKind
    requires DataKept(curves, data) && SavedPrefix(curves, data, curvesArray, i)
    requires r.curves == curves && Rebuilds(r) && Held(r)
    modifies {curves[i]}`patches, {curves[i]}`dirty
    modifies (set p | p in curves[i].patches)`controlPoints, (set p | p in curves[i].patches)`destroyed
    modifies (set p | p in curves[i].patches)`released
    ensures DataKept(curves, data) && SavedPrefix(curves, data, curvesArray + [curveObject], i + 1)
    ensures Rebuilds(r') && Held(r') && r' == r.(born := r'.born)
    ensures forall p :: p in r'.born ==> p in r.born || fresh(p)
  {
    curveObject, r' := SaveTracked(curves, i, r);
  }

  /** Curve i is written, and the record follows what reading its knots did to it. */
  method SaveTracked(curves: seq<Curve>, i: nat, ghost r: Record) returns (curveObject: Json, ghost r': Record)
    requires i < |curves| && curves[i].kind == SplineKind
    requires r.curves == curves && Rebuilds(r) && Held(r)
    modifies {curves[i]}`patches, {curves[i]}`dirty
    modifies (set p | p in curves[i].patches)`controlPoints, (set p | p in curves[i].patches)`destroyed
    modifies (set p | p in curves[i].patches)`released
    ensures curveObject == CurveJson(old(DataOf(curves[i])))
    ensures !curves[i].dirty
    ensures Rebuilds(r') && Held(r') && r' == r.(born := r'.born)
    ensures forall p :: p in r'.born ==> p in r.born || fresh(p)
  {
    var curve := curves[i];
    curveObject := SaveCurve(curve);
    r' := r.(born := r.born + set p | p in curve.patches && p !in r.made && p !in r.born);
    RebuildsStep(r, i, r'.born);
    HeldKept(r, i);
  }

  /** The body of save's loop: the object for one spline, its knots written in order. */
  method SaveCurve(curve: Curve) returns (curveObject: Json)
    requires curve.kind == SplineKind
    modifies curve`patches, curve`dirty
    modifies (set p | p in curve.patches)`controlPoints, (set p | p in curve.patches)`destroyed
    modifies (set p | p in curve.patches)`released
    ensures curveObject == CurveJson(old(DataOf(curve)))
    ensures !curve.dirty
    ensures !old(curve.dirty) ==> curve.patches == old(curve.patches)
    ensures curve.patches == old(curve.patches) || forall p :: p in curve.patches ==> fresh(p)
    ensures old(curve.dirty) ==> curve.UpdatedFrom(old(curve.patches))
    ensures !old(curve.dirty) ==> forall p :: p in curve.patches ==> unchanged(p)
    ensures old(curve.dirty) ==> curve.Counted() && curve.Rebuilt()
  {
    ghost var data := DataOf(curve);
    var knots := curve.KnotPoints();
    if old(curve.dirty) {
      assert curve.Fitted();
    }
    var knotsArray: seq<Json> := [];
    for j := 0 to |knots|
      invariant |knotsArray| == j
      invariant forall l :: 0 <= l < j ==> knotsArray[l] == KnotJson(knots[l].position)
    {
      var position := knots[j].position;
      knotsArray := knotsArray + [KnotJson(position)];
    }
    assert knotsArray == seq(|data.knots|, i requires 0 <= i < |data.knots| => KnotJson(data.knots[i]));
    curveObject := Object(map[
      "r" := Number(curve.radius),
      "sector_count" := Number(curve.sectorCount as real),
      "knots" := Array(knotsArray)]);
  }

  // ---------------------------------------------------------------------------
  // projectOntoPlane

  /**
   * Eigen's Hyperplane(normal, -normal . point) and its projection: the subject moved along
   * the normal by its signed distance normal . subject - normal . point. Eigen takes the
   * normal to be of unit length and does not divide by its norm.
   */
  function ProjectOntoPlane(normal: Vec3, point: Vec3, subject: Vec3): (r: Vec3)
    ensures Dot(normal, r) - Dot(normal, point)
         == (Dot(normal, subject) - Dot(normal, point)) * (1.0 - Dot(normal, normal))
  {
    DotSubScale(normal, subject, Dot(normal, subject) - Dot(normal, point));
    Sub(subject, Scale(Dot(normal, subject) - Dot(normal, point), normal))
  }

  /** With a unit normal the projection lies on the plane through point. */
  lemma ProjectionIsOnPlane(normal: Vec3, point: Vec3, subject: Vec3)
    requires Dot(normal, normal) == 1.0
    ensures Dot(normal, ProjectOntoPlane(normal, point, subject)) == Dot(normal, point)
  {
    DotSubScale(normal, subject, Dot(normal, subject) - Dot(normal, point));
  }

  lemma DotSubScale(n: Vec3, v: Vec3, s: real)
    ensures Dot(n, Sub(v, Scale(s, n))) == Dot(n, v) - s * Dot(n, n)
  {
  }

  /** A subject already on the plane is its own projection, whatever the normal's length. */
  lemma ProjectionFixesPlanePoints(normal: Vec3, point: Vec3, subject: Vec3)
    requires Dot(normal, subject) == Dot(normal, point)
    ensures ProjectOntoPlane(normal, point, subject) == subject
  {
  }

  /** With a unit normal, projecting twice is projecting once. */
  lemma ProjectionIsIdempotent(normal: Vec3, point: Vec3, subject: Vec3)
    requires Dot(normal, normal) == 1.0
    ensures ProjectOntoPlane(normal, point, ProjectOntoPlane(normal, point, subject))
         == ProjectOntoPlane(normal, point, subject)
  {
    ProjectionIsOnPlane(normal, point, subject);
    ProjectionFixesPlanePoints(normal, point, ProjectOntoPlane(normal, point, subject));
  }
}
