/**
 * Ray picking shared by Spline, Bezier and CurveManager: the distance of a point
 * from a ray, and the running minimum / arg-minimum their loops compute.
 *
 * Every distance in the source is `sqrt` of a sum of squares; the model keeps the
 * square and compares squares, which orders points the same way.
 */
module Picking {
  import opened Vectors
  import opened Wrappers

  /** A squared distance, or the `+infinity` the loops start from. */
  datatype Distance = Finite(squared: real) | Infinite

  /** The source's `distance < minDistance` on floats, where +infinity is never smaller. */
  predicate Less(a: Distance, b: Distance) {
    match a
    case Infinite => false
    case Finite(x) => b.Infinite? || x < b.squared
  }

  /**
   * The source's `distance < maxDistance` for a distance `sqrt(squared)`: a square root is
   * never negative, so it is below maxDistance exactly when maxDistance is positive and
   * the square is below maxDistance squared. Its negation is the `minDistance >= maxDistance`
   * gate that turns a pick into null.
   */
  predicate WithinMax(d: Distance, maxDistance: real) {
    d.Finite? && maxDistance > 0.0 && d.squared < maxDistance * maxDistance
  }

  /**
   * How far a point is from the ray (origin, direction): project the offset onto the
   * direction; a point behind the origin (negative projection) is skipped, which the
   * model writes as Infinite; otherwise the squared length of the perpendicular part.
   */
  function Probe(p: Vec3, origin: Vec3, direction: Vec3): Distance {
    var difference := Sub(p, origin);
    var dot := Dot(difference, direction);
    if dot >= 0.0 then Finite(NormSq(Sub(difference, Scale(dot, direction)))) else Infinite
  }

  /** The probe of each point, in order. */
  function Distances(ps: seq<Vec3>, origin: Vec3, direction: Vec3): (ds: seq<Distance>)
    ensures |ds| == |ps|
    ensures forall i :: 0 <= i < |ps| ==> ds[i] == Probe(ps[i], origin, direction)
  {
    seq(|ps|, i requires 0 <= i < |ps| => Probe(ps[i], origin, direction))
  }

  /** The running minimum after a left-to-right scan that replaces it on a strictly smaller value. */
  function MinDistance(ds: seq<Distance>): Distance {
    if ds == [] then Infinite
    else
      var m := MinDistance(ds[..|ds| - 1]);
      if Less(ds[|ds| - 1], m) then ds[|ds| - 1] else m
  }

  /** The index the same scan remembers: the first one that attains the minimum, if any is finite. */
  function FirstArgMin(ds: seq<Distance>): Option<nat> {
    if ds == [] then None
    else if Less(ds[|ds| - 1], MinDistance(ds[..|ds| - 1])) then Some(|ds| - 1)
    else FirstArgMin(ds[..|ds| - 1])
  }

  /** The scan's answer after the `minDistance >= maxDistance` gate. */
  function Pick(ds: seq<Distance>, maxDistance: real): Option<nat> {
    if WithinMax(MinDistance(ds), maxDistance) then FirstArgMin(ds) else None
  }

  /** Index i is what a correct pick returns: close enough, no farther than any other, strictly closer than every earlier one. */
  ghost predicate IsPick(ds: seq<Distance>, maxDistance: real, i: nat) {
    && i < |ds|
    && WithinMax(ds[i], maxDistance)
    && (forall j :: 0 <= j < |ds| ==> !Less(ds[j], ds[i]))
    && (forall j :: 0 <= j < i ==> Less(ds[i], ds[j]))
  }

  /** One step of the scan: the prefix one longer. */
  lemma PrefixStep(ds: seq<Distance>, i: nat)
    requires i < |ds|
    ensures ds[..i + 1][..i] == ds[..i]
    ensures ds[..i + 1][i] == ds[i]
    ensures MinDistance(ds[..i + 1]) == if Less(ds[i], MinDistance(ds[..i])) then ds[i] else MinDistance(ds[..i])
    ensures FirstArgMin(ds[..i + 1]) == if Less(ds[i], MinDistance(ds[..i])) then Some(i) else FirstArgMin(ds[..i])
  {
    assert ds[..i + 1][..i] == ds[..i];
  }

  /** The running minimum is no larger than any entry and, when finite, is one of them. */
  lemma {:induction false} MinDistanceIsMinimum(ds: seq<Distance>)
    ensures forall j :: 0 <= j < |ds| ==> !Less(ds[j], MinDistance(ds))
    ensures MinDistance(ds) == Infinite || MinDistance(ds) in ds
  {
    if ds != [] {
      var p := ds[..|ds| - 1];
      MinDistanceIsMinimum(p);
      forall j | 0 <= j < |ds|
        ensures !Less(ds[j], MinDistance(ds))
      {
        if j < |ds| - 1 {
          assert ds[j] == p[j];
        }
      }
    }
  }

  /** A scan over entries that are all the same value ends at that value. */
  lemma {:induction false} MinDistanceOfConstant(ds: seq<Distance>, c: Distance)
    requires |ds| > 0
    requires forall i :: 0 <= i < |ds| ==> ds[i] == c
    ensures MinDistance(ds) == c
  {
    if |ds| > 1 {
      MinDistanceOfConstant(ds[..|ds| - 1], c);
    }
  }

  /** FirstArgMin finds the first index that attains the minimum, and finds one whenever the minimum is finite. */
  lemma {:induction false} FirstArgMinIsFirst(ds: seq<Distance>)
    ensures FirstArgMin(ds).None? <==> MinDistance(ds) == Infinite
    ensures FirstArgMin(ds).Some? ==>
      && FirstArgMin(ds).value < |ds|
      && ds[FirstArgMin(ds).value] == MinDistance(ds)
      && forall j :: 0 <= j < FirstArgMin(ds).value ==> Less(MinDistance(ds), ds[j])
  {
    if ds != [] {
      var p := ds[..|ds| - 1];
      FirstArgMinIsFirst(p);
      MinDistanceIsMinimum(p);
      var last := ds[|ds| - 1];
      if !Less(last, MinDistance(p)) && FirstArgMin(p).Some? {
        var k := FirstArgMin(p).value;
        assert ds[k] == p[k];
        forall j | 0 <= j < k
          ensures Less(MinDistance(ds), ds[j])
        {
          assert ds[j] == p[j];
        }
      } else if Less(last, MinDistance(p)) {
        forall j | 0 <= j < |ds| - 1
          ensures Less(last, ds[j])
        {
          assert ds[j] == p[j];
          assert !Less(p[j], MinDistance(p));
        }
      }
    }
  }

  /** Pick returns exactly the index a correct pick returns, and nothing when no entry is close enough. */
  lemma PickIsCorrect(ds: seq<Distance>, maxDistance: real)
    ensures Pick(ds, maxDistance).Some? ==> IsPick(ds, maxDistance, Pick(ds, maxDistance).value)
    ensures forall i: nat :: IsPick(ds, maxDistance, i) ==> Pick(ds, maxDistance) == Some(i)
    ensures Pick(ds, maxDistance).None? <==> forall j :: 0 <= j < |ds| ==> !WithinMax(ds[j], maxDistance)
  {
    MinDistanceIsMinimum(ds);
    FirstArgMinIsFirst(ds);
    var m := MinDistance(ds);
    forall i: nat | IsPick(ds, maxDistance, i)
      ensures Pick(ds, maxDistance) == Some(i)
    {
      assert !Less(ds[i], m) && !Less(m, ds[i]);
      assert m == ds[i];
    }
    if Pick(ds, maxDistance).Some? {
      var k := Pick(ds, maxDistance).value;
      forall j | 0 <= j < k ensures Less(ds[k], ds[j]) {
      }
    }
    if exists j :: 0 <= j < |ds| && WithinMax(ds[j], maxDistance) {
      var j :| 0 <= j < |ds| && WithinMax(ds[j], maxDistance);
      assert !Less(ds[j], m);
    }
  }

  /** A point straight ahead on a unit-direction ray is at distance zero. */
  lemma ProbeAheadOnRay(origin: Vec3, direction: Vec3, s: real)
    requires NormSq(direction) == 1.0
    requires s >= 0.0
    ensures Probe(Add(origin, Scale(s, direction)), origin, direction) == Finite(0.0)
  {
    var difference := Sub(Add(origin, Scale(s, direction)), origin);
    assert difference == Scale(s, direction);
    var dot := Dot(difference, direction);
    assert dot == s * NormSq(direction);
    assert Sub(difference, Scale(dot, direction)) == Zero;
  }

  /** A point behind the origin of a ray with non-zero direction is never picked. */
  lemma ProbeBehindIsInfinite(origin: Vec3, direction: Vec3, s: real)
    requires NormSq(direction) > 0.0
    requires s > 0.0
    ensures Probe(Sub(origin, Scale(s, direction)), origin, direction) == Infinite
  {
    var difference := Sub(Sub(origin, Scale(s, direction)), origin);
    assert difference == Scale(-s, direction);
    assert Dot(difference, direction) == -s * NormSq(direction);
  }
}
