/**
 * Passes that ask every listed curve in turn for something (its distance to a ray, its
 * knots), which rebuilds each dirty spline on the way: what such a pass leaves behind, and
 * the record its loop keeps to show it.
 */
module CurvePasses {
  import opened Curves

  /**
   * Since the old state, every listed curve that was a dirty spline is clean with a list of
   * distinct new patches of the count update makes; every other listed curve keeps its patch
   * list and dirty flag, and its patches keep their control points and deleted state unless
   * one is also a patch of a dirty spline.
   */
  twostate predicate RebuiltDirtySplines(cs: seq<Curve>)
    reads (set c | c in cs)`patches, (set c | c in cs)`dirty, (set c | c in cs)`knots
    reads CurvePatches(cs)`controlPoints, CurvePatches(cs)`destroyed, CurvePatches(cs)`released
  {
    && (forall c :: c in cs && !(c.kind == SplineKind && old(c.dirty)) ==>
          c.patches == old(c.patches) && c.dirty == old(c.dirty))
    && (forall c :: c in cs && c.kind == SplineKind && old(c.dirty) ==>
          !c.dirty && c.Counted() && c.Rebuilt())
    && (forall c, p :: (c in cs && !(c.kind == SplineKind && old(c.dirty)) && p in c.patches
                        && p !in old(DirtySplinePatches(cs))) ==> StateOf(p) == old(StateOf(p)))
  }

  /**
   * What a pass's loop keeps track of: the listed curves, each one's patch list and dirty
   * flag when the loop started, all those patches (made before it), the state then of those
   * that are not patches of a dirty spline (held), and the patches made since (born).
   */
  datatype Record = Record(curves: seq<Curve>, patches: map<Curve, seq<Curve>>, dirty: map<Curve, bool>,
                           made: set<Curve>, held: map<Curve, PatchState>, born: set<Curve>)
  {
    /** c was a dirty spline when the loop started and is clean now: it has been rebuilt since. */
    ghost predicate Renewed(c: Curve)
      requires c in dirty
      reads c`dirty
    {
      c.kind == SplineKind && dirty[c] && !c.dirty
    }
  }

  /** The record of the listed curves as they are now, before any has been asked. */
  ghost function Start(cs: seq<Curve>): (r: Record)
    reads set c | c in cs
    reads CurvePatches(cs)`controlPoints, CurvePatches(cs)`destroyed, CurvePatches(cs)`released
    ensures r.curves == cs && r.born == {} && Rebuilds(r) && Held(r)
    ensures forall p :: p in CurvePatches(cs) - DirtySplinePatches(cs) ==> p in r.held && r.held[p] == StateOf(p)
  {
    Record(cs, map c | c in cs :: c.patches, map c | c in cs :: c.dirty, CurvePatches(cs),
           map p | p in CurvePatches(cs) - DirtySplinePatches(cs) :: StateOf(p), {})
  }

  /**
   * Against the record: every patch is an old one or one made since, every curve that has
   * not been rebuilt keeps its list and flag, and every rebuilt spline has a list of
   * distinct patches made since, of the count update makes.
   */
  ghost predicate Rebuilds(r: Record)
    reads set c | c in r.curves
  {
    && (forall c :: c in r.curves ==> c in r.patches && c in r.dirty)
    && (forall c, p :: c in r.curves && p in c.patches ==> p in r.made || p in r.born)
    && (forall c :: c in r.curves && !r.Renewed(c) ==> c.patches == r.patches[c] && c.dirty == r.dirty[c])
    && (forall c :: c in r.curves && r.Renewed(c) ==> c.Counted() && forall p :: p in c.patches ==> p in r.born)
  }

  /**
   * The patches the record holds, none of them a patch of a spline that was dirty when the
   * loop started, keep the state they had then.
   */
  ghost predicate Held(r: Record)
    reads r.held.Keys`controlPoints, r.held.Keys`destroyed, r.held.Keys`released
  {
    && (forall c, p :: (c in r.curves && c in r.patches && c in r.dirty && c.kind == SplineKind && r.dirty[c]
                        && p in r.patches[c]) ==> p !in r.held)
    && (forall p :: p in r.held ==> r.held[p] == StateOf(p))
  }

  /** Asking curve i, which changes no other curve's patch list or flag, keeps Rebuilds. */
  twostate lemma RebuildsStep(r: Record, new i: nat, new born: set<Curve>)
    requires i < |r.curves| && old(Rebuilds(r))
    requires forall c :: c in r.curves ==> c.knots == old(c.knots)
    requires forall c :: c in r.curves && c != r.curves[i] ==> c.patches == old(c.patches) && c.dirty == old(c.dirty)
    requires r.curves[i].kind == SplineKind && old(r.curves[i].dirty) ==>
      !r.curves[i].dirty && r.curves[i].Counted() && forall p :: p in r.curves[i].patches ==> p in born
    requires !(r.curves[i].kind == SplineKind && old(r.curves[i].dirty)) ==>
      r.curves[i].patches == old(r.curves[i].patches) && r.curves[i].dirty == old(r.curves[i].dirty)
    requires r.born <= born
    ensures Rebuilds(r.(born := born))
  {
    forall c | c in r.curves
      ensures !r.Renewed(c) ==> c.patches == r.patches[c] && c.dirty == r.dirty[c]
      ensures r.Renewed(c) ==> c.Counted() && forall p :: p in c.patches ==> p in born
    {
      if c != r.curves[i] || !(c.kind == SplineKind && old(c.dirty)) {
        assert c.patches == old(c.patches) && c.dirty == old(c.dirty);
        assert old(r.Renewed(c)) == r.Renewed(c);
      }
    }
  }

  /**
   * Asking curve i keeps the state of the held patches: it changes only its own patches,
   * and those only when it is a dirty spline, whose patches are not held.
   */
  twostate lemma HeldKept(r: Record, new i: nat)
    requires i < |r.curves| && old(Held(r)) && old(Rebuilds(r))
    requires forall p :: p in r.held && p !in old(r.curves[i].patches) ==> StateOf(p) == old(StateOf(p))
    requires !(r.curves[i].kind == SplineKind && old(r.curves[i].dirty)) ==>
      forall p :: p in old(r.curves[i].patches) ==> StateOf(p) == old(StateOf(p))
    ensures Held(r)
  {
    forall p | p in r.held
      ensures r.held[p] == StateOf(p)
    {
      if p in old(r.curves[i].patches) && r.curves[i].kind == SplineKind && old(r.curves[i].dirty) {
        assert false;
      }
    }
  }

  /**
   * Once every curve has been asked and every spline is clean, the record started in the old
   * state shows that the pass rebuilt exactly the dirty splines and left the rest alone.
   */
  twostate lemma PassDone(start: Record, new r: Record)
    requires start == old(Start(start.curves))
    requires r == start.(born := r.born) && Rebuilds(r) && Held(r)
    requires forall p :: p in r.born ==> fresh(p)
    requires forall c :: c in r.curves && c.kind == SplineKind ==> !c.dirty
    ensures RebuiltDirtySplines(start.curves)
  {
    var cs := start.curves;
    forall c | c in cs
      ensures !(c.kind == SplineKind && old(c.dirty)) ==> c.patches == old(c.patches) && c.dirty == old(c.dirty)
      ensures c.kind == SplineKind && old(c.dirty) ==> !c.dirty && c.Counted() && c.Rebuilt()
    {
      assert r.Renewed(c) <==> c.kind == SplineKind && old(c.dirty);
    }
    forall c, p | c in cs && !(c.kind == SplineKind && old(c.dirty)) && p in c.patches
                  && p !in old(DirtySplinePatches(cs))
      ensures StateOf(p) == old(StateOf(p))
    {
      assert p in old(c.patches);
    }
  }
}
