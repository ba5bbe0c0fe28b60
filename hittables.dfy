/** The `Hittable` interface (src/hittable.rs) over every kind of object the
    scene can hold, with the dispatch of `hit` and `bounding_box`. The list
    scan (src/hittable_list.rs), the box's delegation to its sides
    (src/_box.rs), the medium (src/constantmedium.rs) and the BVH node
    (src/bvh.rs) recurse into the objects they hold, so their `hit`s are
    defined here together. */
module Hittables {
  import opened Vectors
  import opened Rays
  import opened Util
  import opened Aabbs
  import opened Materials
  import opened HitRecords
  import Spheres
  import MovingSpheres
  import Rects

  /** A `dyn Hittable`. `BoxObj` keeps its corners as given and its six
      sides; `Medium` keeps its boundary, its phase function and
      `neg_inv_density`; `BvhNode` keeps its children and their cached
      union box. */
  datatype Hittable =
    | SphereObj(sphere: Spheres.Sphere)
    | MovingSphereObj(moving: MovingSpheres.MovingSphere)
    | RectObj(rect: Rects.Rect)
    | BoxObj(boxMin: Vec3, boxMax: Vec3, sides: seq<Hittable>)
    | Medium(boundary: Hittable, phase: Material, negInvDensity: real)
    | BvhNode(left: Hittable, right: Hittable, aabb: Aabb)
    | ListObj(objects: seq<Hittable>)

  /** `hit(r, t_min, t_max)`. `sqrt` is the square root the caller computes
      with, and `lnU` the `random_f64().ln()` a medium draws. A ray without
      direction meets nothing. */
  function Hit(h: Hittable, r: Ray, tMin: ExtReal, tMax: ExtReal, sqrt: real -> real, lnU: real): (rec: Option<HitRecord>)
    ensures r.dir == Zero ==> rec.None?
    decreases h, 0
  {
    match h
    case SphereObj(s) => Spheres.Hit(s, r, tMin, tMax, sqrt)
    case MovingSphereObj(m) => MovingSpheres.Hit(m, r, tMin, tMax, sqrt)
    case RectObj(rect) => Rects.Hit(rect, r, tMin, tMax)
    case BoxObj(_, _, sides) => ListHit(sides, r, tMin, tMax, sqrt, lnU)
    case Medium(boundary, phase, negInvDensity) => MediumHit(boundary, phase, negInvDensity, r, tMin, tMax, sqrt, lnU)
    case BvhNode(left, right, aabb) =>
      if !Overlaps(aabb, r, tMin, tMax) then None
      else
        (match Hit(left, r, tMin, tMax, sqrt, lnU)
         case Some(hitLeft) =>
           (match Hit(right, r, tMin, Finite(hitLeft.t), sqrt, lnU)
            case Some(hitRight) => Some(hitRight)
            case None => Some(hitLeft))
         case None => Hit(right, r, tMin, tMax, sqrt, lnU))
    case ListObj(objects) => ListHit(objects, r, tMin, tMax, sqrt, lnU)
  }

  /** `HittableList::hit` after its loop has visited `objects`: each object
      is queried on `[t_min, closest_so_far]`, where the upper bound is the
      last hit found, or `t_max` before any. An empty list, and a ray
      without direction, find nothing. */
  function ListHit(objects: seq<Hittable>, r: Ray, tMin: ExtReal, tMax: ExtReal, sqrt: real -> real, lnU: real): (rec: Option<HitRecord>)
    ensures |objects| == 0 || r.dir == Zero ==> rec.None?
    decreases objects, 1
  {
    if |objects| == 0 then None
    else
      var earlier := ListHit(objects[..|objects| - 1], r, tMin, tMax, sqrt, lnU);
      var closestSoFar := if earlier.Some? then Finite(earlier.value.t) else tMax;
      match Hit(objects[|objects| - 1], r, tMin, closestSoFar, sqrt, lnU)
      case Some(rec) => Some(rec)
      case None => earlier
  }

  /** `ConstantMedium::hit` as written: the boundary is crossed on
      `(-inf, inf)` and again from just after the first crossing; a miss of
      either is a miss. A hit carries the phase function as its material,
      the arbitrary normal `(1, 0, 0)` and `front_face` true. */
  function MediumHit(boundary: Hittable, phase: Material, negInvDensity: real, r: Ray, tMin: ExtReal, tMax: ExtReal,
                     sqrt: real -> real, lnU: real): (rec: Option<HitRecord>)
    ensures r.dir == Zero ==> rec.None?
    ensures rec.Some? ==> rec.value.mat == phase && rec.value.normal == Vec3(1.0, 0.0, 0.0) && rec.value.frontFace
    decreases boundary, 2
  {
    match Hit(boundary, r, NegInf, PosInf, sqrt, lnU)
    case None => None
    case Some(rec1) =>
      match Hit(boundary, r, Finite(rec1.t + 0.0001), PosInf, sqrt, lnU)
      case None => None
      case Some(rec2) => MediumSample(rec1.t, rec2.t, phase, negInvDensity, r, tMin, tMax, sqrt, lnU)
  }

  /** `distance_inside_boundary`: the length of the clipped stretch of
      the ray between the parameters `entry` and `exit`. */
  function DistanceInside(entry: real, exit: real, rayLength: real): real {
    (exit - entry) * rayLength
  }

  /** The parameter reached by travelling `hitDistance` along the ray
      from parameter `start`. */
  function Advance(start: real, hitDistance: real, rayLength: real): real
    requires rayLength != 0.0
  {
    start + hitDistance / rayLength
  }

  /** The rest of `ConstantMedium::hit` once the crossings `t1` and `t2` are
      known: they are clipped to the interval and the entry to zero, then a
      hit is reported only when the sampled distance is at least the
      distance inside the boundary (src/constantmedium.rs:68). A
      zero-length direction is a miss, and so is a clipped stretch that is
      empty. The record carries the phase function, the
      normal `(1, 0, 0)`, `front_face` true and `u == v == 0`. */
  function MediumSample(t1: real, t2: real, phase: Material, negInvDensity: real, r: Ray, tMin: ExtReal, tMax: ExtReal,
                        sqrt: real -> real, lnU: real): (rec: Option<HitRecord>)
    ensures rec.Some? ==> Less(Max(tMin, Finite(t1)), Min(tMax, Finite(t2)))
    ensures Length(r.dir, sqrt) == 0.0 ==> rec.None?
    ensures rec.Some? ==>
      && rec.value.normal == Vec3(1.0, 0.0, 0.0) && rec.value.frontFace
      && rec.value.u == 0.0 && rec.value.v == 0.0 && rec.value.mat == phase
  {
    var entry := if Less(Finite(t1), tMin) then tMin else Finite(t1);
    var exit := if Less(tMax, Finite(t2)) then tMax else Finite(t2);
    if !Less(entry, exit) then None
    else
      var start := if entry.value < 0.0 then 0.0 else entry.value;
      var rayLength := Length(r.dir, sqrt);
      var distanceInsideBoundary := DistanceInside(start, exit.value, rayLength);
      var hitDistance := negInvDensity * lnU;
      if hitDistance < distanceInsideBoundary || rayLength == 0.0 then None
      else
        var t := Advance(start, hitDistance, rayLength);
        Some(HitRecord(r.At(t), Vec3(1.0, 0.0, 0.0), phase, t, 0.0, 0.0, true))
  }

  /** `bounding_box(time0, time1)`. A list never has one: its loop returns
      `None` on the first object (src/hittable_list.rs:55). Whether an
      object has a box does not depend on the times asked about: it has none
      exactly when the media around it wrap a list. */
  function BoundingBox(h: Hittable, time0: real, time1: real): (b: Option<Aabb>)
    ensures b.None? <==> Innermost(h).ListObj?
  {
    match h
    case SphereObj(s) => Some(Spheres.BoundingBox(s))
    case MovingSphereObj(m) => MovingSpheres.BoundingBox(m, time0, time1)
    case RectObj(rect) => Some(Rects.BoundingBox(rect))
    case BoxObj(boxMin, boxMax, _) => Some(Aabb(boxMin, boxMax))
    case Medium(boundary, _, _) => BoundingBox(boundary, time0, time1)
    case BvhNode(_, _, aabb) => Some(aabb)
    case ListObj(_) => None
  }

  /** No constant medium anywhere inside `h`. Every other kind of object
      reports hits only inside the interval it is asked about. */
  predicate MediumFree(h: Hittable)
    decreases h
  {
    match h
    case SphereObj(_) => true
    case MovingSphereObj(_) => true
    case RectObj(_) => true
    case BoxObj(_, _, sides) => forall i :: 0 <= i < |sides| ==> MediumFree(sides[i])
    case Medium(_, _, _) => false
    case BvhNode(left, right, _) => MediumFree(left) && MediumFree(right)
    case ListObj(objects) => forall i :: 0 <= i < |objects| ==> MediumFree(objects[i])
  }

  /** A medium-free object's hit lies in `[t_min, t_max]`. */
  lemma {:induction false} HitWithinInterval(h: Hittable, r: Ray, tMin: ExtReal, tMax: ExtReal, sqrt: real -> real, lnU: real)
    requires MediumFree(h)
    ensures var rec := Hit(h, r, tMin, tMax, sqrt, lnU);
      rec.Some? ==> Within(rec.value.t, tMin, tMax)
    decreases h, 0
  {
    match h
    case SphereObj(s) => Spheres.HitBallFacts(s.center, s.radius, s.mat, r, tMin, tMax, sqrt);
    case MovingSphereObj(m) => MovingSpheres.HitFacts(m, r, tMin, tMax, sqrt);
    case RectObj(rect) =>
      if Rects.Hit(rect, r, tMin, tMax).Some? {
        Rects.HitFacts(rect, r, tMin, tMax);
      }
    case BoxObj(_, _, sides) => ListHitWithinInterval(sides, r, tMin, tMax, sqrt, lnU);
    case BvhNode(left, right, aabb) =>
      HitWithinInterval(left, r, tMin, tMax, sqrt, lnU);
      var hitLeft := Hit(left, r, tMin, tMax, sqrt, lnU);
      if hitLeft.Some? {
        HitWithinInterval(right, r, tMin, Finite(hitLeft.value.t), sqrt, lnU);
        var hitRight := Hit(right, r, tMin, Finite(hitLeft.value.t), sqrt, lnU);
        if hitRight.Some? {
          WithinNarrower(hitRight.value.t, hitLeft.value.t, tMin, tMax);
        }
      } else {
        HitWithinInterval(right, r, tMin, tMax, sqrt, lnU);
      }
    case ListObj(objects) => ListHitWithinInterval(objects, r, tMin, tMax, sqrt, lnU);
  }

  /** The list scan's hit lies in `[t_min, t_max]` when every object's does. */
  lemma {:induction false} ListHitWithinInterval(objects: seq<Hittable>, r: Ray, tMin: ExtReal, tMax: ExtReal,
                                                 sqrt: real -> real, lnU: real)
    requires forall i :: 0 <= i < |objects| ==> MediumFree(objects[i])
    ensures var rec := ListHit(objects, r, tMin, tMax, sqrt, lnU);
      rec.Some? ==> Within(rec.value.t, tMin, tMax)
    decreases objects, 1
  {
    if |objects| > 0 {
      var prefix := objects[..|objects| - 1];
      ListHitWithinInterval(prefix, r, tMin, tMax, sqrt, lnU);
      var earlier := ListHit(prefix, r, tMin, tMax, sqrt, lnU);
      var closestSoFar := if earlier.Some? then Finite(earlier.value.t) else tMax;
      HitWithinInterval(objects[|objects| - 1], r, tMin, closestSoFar, sqrt, lnU);
      var rec := Hit(objects[|objects| - 1], r, tMin, closestSoFar, sqrt, lnU);
      if rec.Some? && earlier.Some? {
        WithinNarrower(rec.value.t, earlier.value.t, tMin, tMax);
      }
    }
  }

  /** The scan's hit is the hit of one of the objects, asked about some
      upper bound. */
  lemma {:induction false} ListHitFromMember(objects: seq<Hittable>, r: Ray, tMin: ExtReal, tMax: ExtReal,
                                             sqrt: real -> real, lnU: real) returns (i: nat, bound: ExtReal)
    requires ListHit(objects, r, tMin, tMax, sqrt, lnU).Some?
    ensures i < |objects|
    ensures Hit(objects[i], r, tMin, bound, sqrt, lnU) == ListHit(objects, r, tMin, tMax, sqrt, lnU)
  {
    var prefix := objects[..|objects| - 1];
    var earlier := ListHit(prefix, r, tMin, tMax, sqrt, lnU);
    var closestSoFar := if earlier.Some? then Finite(earlier.value.t) else tMax;
    if Hit(objects[|objects| - 1], r, tMin, closestSoFar, sqrt, lnU).Some? {
      i, bound := |objects| - 1, closestSoFar;
    } else {
      i, bound := ListHitFromMember(prefix, r, tMin, tMax, sqrt, lnU);
    }
  }

  lemma WithinNarrower(x: real, bound: real, tMin: ExtReal, tMax: ExtReal)
    requires Within(x, tMin, Finite(bound)) && Within(bound, tMin, tMax)
    ensures Within(x, tMin, tMax)
  {
  }

  /** Once the scan has found a hit it keeps one, and `closest_so_far`
      never grows as later objects are visited. */
  lemma {:induction false} ListHitNeverRecedes(objects: seq<Hittable>, n: nat, r: Ray, tMin: ExtReal, tMax: ExtReal,
                                               sqrt: real -> real, lnU: real)
    requires n <= |objects|
    requires forall i :: 0 <= i < |objects| ==> MediumFree(objects[i])
    ensures var before := ListHit(objects[..n], r, tMin, tMax, sqrt, lnU);
      var after := ListHit(objects, r, tMin, tMax, sqrt, lnU);
      before.Some? ==> after.Some? && after.value.t <= before.value.t
    decreases |objects|
  {
    if n == |objects| {
      assert objects[..n] == objects;
    } else {
      var prefix := objects[..|objects| - 1];
      assert prefix[..n] == objects[..n];
      ListHitNeverRecedes(prefix, n, r, tMin, tMax, sqrt, lnU);
      var earlier := ListHit(prefix, r, tMin, tMax, sqrt, lnU);
      if earlier.Some? {
        HitWithinInterval(objects[|objects| - 1], r, tMin, Finite(earlier.value.t), sqrt, lnU);
      }
    }
  }

  /** A BVH node whose box the ray meets answers exactly as the list scan of
      its two children; a node whose box it misses reports nothing. */
  lemma BvhHitIsPairScan(left: Hittable, right: Hittable, aabb: Aabb, r: Ray, tMin: ExtReal, tMax: ExtReal,
                         sqrt: real -> real, lnU: real)
    ensures !Overlaps(aabb, r, tMin, tMax) ==> Hit(BvhNode(left, right, aabb), r, tMin, tMax, sqrt, lnU).None?
    ensures Overlaps(aabb, r, tMin, tMax) ==>
      Hit(BvhNode(left, right, aabb), r, tMin, tMax, sqrt, lnU) == ListHit([left, right], r, tMin, tMax, sqrt, lnU)
  {
    if Overlaps(aabb, r, tMin, tMax) {
      assert [left, right][..1] == [left];
      assert [left][..0] == [];
      assert ListHit([left], r, tMin, tMax, sqrt, lnU) == Hit(left, r, tMin, tMax, sqrt, lnU);
    }
  }

  /** No moving sphere at the top of `h` or inside the media around it. */
  predicate Stationary(h: Hittable) {
    match h
    case MovingSphereObj(_) => false
    case Medium(boundary, _, _) => Stationary(boundary)
    case _ => true
  }

  /** Only a moving sphere's box depends on the times asked about: a BVH
      node returns its cached box, a box its corners, a rectangle and a
      sphere their fixed extents, and a medium its boundary's box. */
  lemma {:induction false} StationaryBoxIgnoresTimes(h: Hittable, time0: real, time1: real, other0: real, other1: real)
    requires Stationary(h)
    ensures BoundingBox(h, time0, time1) == BoundingBox(h, other0, other1)
  {
    if h.Medium? {
      StationaryBoxIgnoresTimes(h.boundary, time0, time1, other0, other1);
    }
  }

  /** The object a chain of media finally wraps. */
  function Innermost(h: Hittable): (core: Hittable)
    ensures !core.Medium?
  {
    if h.Medium? then Innermost(h.boundary) else h
  }

  /** `ConstantMedium::bounding_box`: a medium reports its boundary's box. */
  lemma MediumBoxIsBoundarys(boundary: Hittable, phase: Material, negInvDensity: real, time0: real, time1: real)
    ensures BoundingBox(Medium(boundary, phase, negInvDensity), time0, time1) == BoundingBox(boundary, time0, time1)
  {
  }
}
