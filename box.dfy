/** `Box` (src/_box.rs): an axis-aligned box built from six rectangles,
    which answers ray queries through the list of its sides. */
module Boxes {
  import opened Vectors
  import opened Rays
  import opened Util
  import opened Materials
  import opened HitRecords
  import Rects
  import opened Hittables
  import opened HittableLists

  /** The six faces in the order `Box::new` adds them: the two `XYRect`s at
      `p1.z` and `p0.z`, the two `XZRect`s at `p1.y` and `p0.y`, the two
      `YZRect`s at `p1.x` and `p0.x`, all of the box's material. */
  function Sides(p0: Vec3, p1: Vec3, mat: Material): (sides: seq<Hittable>)
    ensures |sides| == 6
    ensures forall i :: 0 <= i < |sides| ==> sides[i].RectObj? && sides[i].rect.mat == mat
  {
    [RectObj(Rects.Rect(Rects.XY, p0.x, p1.x, p0.y, p1.y, p1.z, mat)),
     RectObj(Rects.Rect(Rects.XY, p0.x, p1.x, p0.y, p1.y, p0.z, mat)),
     RectObj(Rects.Rect(Rects.XZ, p0.x, p1.x, p0.z, p1.z, p1.y, mat)),
     RectObj(Rects.Rect(Rects.XZ, p0.x, p1.x, p0.z, p1.z, p0.y, mat)),
     RectObj(Rects.Rect(Rects.YZ, p0.y, p1.y, p0.z, p1.z, p1.x, mat)),
     RectObj(Rects.Rect(Rects.YZ, p0.y, p1.y, p0.z, p1.z, p0.x, mat))]
  }

  /** `Box::new(p0, p1, mat)`: fills an empty list with the six sides and
      keeps the corners exactly as given. */
  method New(p0: Vec3, p1: Vec3, mat: Material) returns (b: Hittable)
    ensures b == BoxObj(p0, p1, Sides(p0, p1, mat))
    ensures b.boxMin == p0 && b.boxMax == p1
  {
    var sides := new HittableList.Empty();
    sides.Add(RectObj(Rects.Rect(Rects.XY, p0.x, p1.x, p0.y, p1.y, p1.z, mat)));
    sides.Add(RectObj(Rects.Rect(Rects.XY, p0.x, p1.x, p0.y, p1.y, p0.z, mat)));
    sides.Add(RectObj(Rects.Rect(Rects.XZ, p0.x, p1.x, p0.z, p1.z, p1.y, mat)));
    sides.Add(RectObj(Rects.Rect(Rects.XZ, p0.x, p1.x, p0.z, p1.z, p0.y, mat)));
    sides.Add(RectObj(Rects.Rect(Rects.YZ, p0.y, p1.y, p0.z, p1.z, p1.x, mat)));
    sides.Add(RectObj(Rects.Rect(Rects.YZ, p0.y, p1.y, p0.z, p1.z, p0.x, mat)));
    b := BoxObj(p0, p1, sides.objects);
  }

  /** `p` lies in the closed box with corners `p0` and `p1`. */
  predicate InBox(p: Vec3, p0: Vec3, p1: Vec3) {
    p0.x <= p.x <= p1.x && p0.y <= p.y <= p1.y && p0.z <= p.z <= p1.z
  }

  /** `p` lies in the plane of one of the box's six faces. */
  predicate OnFace(p: Vec3, p0: Vec3, p1: Vec3) {
    p.x == p0.x || p.x == p1.x || p.y == p0.y || p.y == p1.y || p.z == p0.z || p.z == p1.z
  }

  /** For a box with `p0 <= p1` on every axis, every hit lies on the box's
      surface: inside the closed box and on one of its faces. */
  lemma HitOnSurface(p0: Vec3, p1: Vec3, mat: Material, r: Ray, tMin: ExtReal, tMax: ExtReal,
                     sqrt: real -> real, lnU: real)
    requires p0.x <= p1.x && p0.y <= p1.y && p0.z <= p1.z
    requires Hittables.Hit(BoxObj(p0, p1, Sides(p0, p1, mat)), r, tMin, tMax, sqrt, lnU).Some?
    ensures var p := Hittables.Hit(BoxObj(p0, p1, Sides(p0, p1, mat)), r, tMin, tMax, sqrt, lnU).value.p;
      InBox(p, p0, p1) && OnFace(p, p0, p1)
  {
    var sides := Sides(p0, p1, mat);
    var i, bound := ListHitFromMember(sides, r, tMin, tMax, sqrt, lnU);
    var rect := sides[i].rect;
    assert Hittables.Hit(sides[i], r, tMin, bound, sqrt, lnU) == Rects.Hit(rect, r, tMin, bound);
    var p := Rects.Hit(rect, r, tMin, bound).value.p;
    Rects.HitInPlane(rect, r, tMin, bound);
    Rects.HitWithinExtents(rect, r, tMin, bound);
    SidePointOnSurface(p0, p1, mat, i, p);
  }

  /** A point of the `i`-th side's plane within its extents lies on the
      box's surface. */
  lemma SidePointOnSurface(p0: Vec3, p1: Vec3, mat: Material, i: nat, p: Vec3)
    requires p0.x <= p1.x && p0.y <= p1.y && p0.z <= p1.z
    requires i < 6
    requires var rect := Sides(p0, p1, mat)[i].rect;
      var q := Rects.Project(rect.plane, p);
      q.z == rect.k && rect.a0 <= q.x <= rect.a1 && rect.b0 <= q.y <= rect.b1
    ensures InBox(p, p0, p1) && OnFace(p, p0, p1)
  {
  }
}
