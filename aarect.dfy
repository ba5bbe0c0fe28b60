/** Axis-aligned rectangles (src/aarect.rs). `XYRect` is the one shown;
    `XZRect` and `YZRect` are its axis-permuted analogues: a rectangle
    spans two axes and sits at `k` on the third. */
module Rects {
  import opened Vectors
  import opened Rays
  import opened Util
  import opened Aabbs
  import opened Materials
  import opened HitRecords

  /** Which two axes a rectangle spans. */
  datatype Plane = XY | XZ | YZ

  /** `XYRect::new(x0, x1, y0, y1, k, mp)` and its analogues: extents
      `[a0, a1]` on the first spanned axis, `[b0, b1]` on the second, at
      `k` on the third. */
  datatype Rect = Rect(plane: Plane, a0: real, a1: real, b0: real, b1: real, k: real, mat: Material)

  /** A vector in the rectangle's own frame: the two spanned axes become
      x and y and the perpendicular axis becomes z, so every rectangle
      reads as an `XYRect`. */
  function Project(plane: Plane, v: Vec3): Vec3 {
    match plane
    case XY => v
    case XZ => Vec3(v.x, v.z, v.y)
    case YZ => Vec3(v.y, v.z, v.x)
  }

  /** The inverse of `Project`. */
  function Place(plane: Plane, f: Vec3): Vec3 {
    match plane
    case XY => f
    case XZ => Vec3(f.x, f.z, f.y)
    case YZ => Vec3(f.z, f.x, f.y)
  }

  /** Changing frame is a bijection that commutes with the ray's arithmetic. */
  lemma ProjectFacts(plane: Plane, u: Vec3, v: Vec3, s: real)
    ensures Place(plane, Project(plane, u)) == u && Project(plane, Place(plane, u)) == u
    ensures Project(plane, Add(u, Scale(s, v))) == Add(Project(plane, u), Scale(s, Project(plane, v)))
    ensures Dot(Project(plane, u), Project(plane, v)) == Dot(u, v)
  {
  }

  /** The rectangle's outward normal: the unit vector along its
      perpendicular axis. */
  function OutwardNormal(plane: Plane): (e: Vec3)
    ensures Project(plane, e) == Vec3(0.0, 0.0, 1.0)
  {
    Place(plane, Vec3(0.0, 0.0, 1.0))
  }

  /** `hit`: where the ray crosses the plane `k`, if that parameter is in
      the interval and the crossing lies within both extents. A ray
      parallel to the plane does not hit. */
  function Hit(rect: Rect, r: Ray, tMin: ExtReal, tMax: ExtReal): (h: Option<HitRecord>)
    ensures Project(rect.plane, r.dir).z == 0.0 ==> h.None?
    ensures h.Some? ==> Within(h.value.t, tMin, tMax) && h.value.p == r.At(h.value.t) && h.value.mat == rect.mat
  {
    var o := Project(rect.plane, r.orig);
    var d := Project(rect.plane, r.dir);
    if d.z == 0.0 then None
    else HitAt(rect, r, (rect.k - o.z) / d.z, OutwardNormal(rect.plane), tMin, tMax)
  }

  /** The rest of `hit`, once the crossing parameter `t` is known; `n` is
      the outward normal. There is a hit exactly when `t` is in the
      interval and the crossing lies within both extents; it is at `t`, on
      the ray, with the rectangle's material. */
  function HitAt(rect: Rect, r: Ray, t: real, n: Vec3, tMin: ExtReal, tMax: ExtReal): (h: Option<HitRecord>)
    ensures var o, d := Project(rect.plane, r.orig), Project(rect.plane, r.dir);
      h.Some? <==> Within(t, tMin, tMax) && rect.a0 <= o.x + t * d.x <= rect.a1 && rect.b0 <= o.y + t * d.y <= rect.b1
    ensures h.Some? ==> h.value.t == t && h.value.p == r.At(t) && h.value.mat == rect.mat
  {
    var o := Project(rect.plane, r.orig);
    var d := Project(rect.plane, r.dir);
    if !Within(t, tMin, tMax) then None
    else
      var x := o.x + t * d.x;
      var y := o.y + t * d.y;
      if x < rect.a0 || x > rect.a1 || y < rect.b0 || y > rect.b1 then None
      else
        var record := HitRecord(r.At(t), Zero, rect.mat, t,
          Quot(x - rect.a0, rect.a1 - rect.a0), Quot(y - rect.b0, rect.b1 - rect.b0), false);
        Some(record.SetFaceNormal(r, n))
  }

  /** `bounding_box`: the extents, padded by 0.0001 on either side of `k`
      so that the box has thickness along the perpendicular axis. */
  function BoundingBox(rect: Rect): (b: Aabb)
    ensures Project(rect.plane, b.minimum).z < rect.k < Project(rect.plane, b.maximum).z
    ensures Project(rect.plane, b.minimum).x == rect.a0 && Project(rect.plane, b.maximum).x == rect.a1
    ensures Project(rect.plane, b.minimum).y == rect.b0 && Project(rect.plane, b.maximum).y == rect.b1
  {
    Aabb(Place(rect.plane, Vec3(rect.a0, rect.b0, rect.k - 0.0001)),
         Place(rect.plane, Vec3(rect.a1, rect.b1, rect.k + 0.0001)))
  }

  /** What a hit promises about its parameter, point, material and
      normal: the parameter is in the interval, the point is on the ray,
      and the normal is the axis normal turned against the ray. */
  lemma HitFacts(rect: Rect, r: Ray, tMin: ExtReal, tMax: ExtReal)
    requires Hit(rect, r, tMin, tMax).Some?
    ensures var h := Hit(rect, r, tMin, tMax).value;
      && Within(h.t, tMin, tMax)
      && h.p == r.At(h.t)
      && h.mat == rect.mat
      && (h.normal == OutwardNormal(rect.plane) || h.normal == Neg(OutwardNormal(rect.plane)))
      && Dot(r.dir, h.normal) <= 0.0
  {
    var h := Hit(rect, r, tMin, tMax).value;
    SetFaceNormalOpposesRay(h, r, OutwardNormal(rect.plane));
  }

  /** The crossing parameter of a ray that is not parallel to the plane. */
  function CrossingParameter(rect: Rect, r: Ray): real
    requires Project(rect.plane, r.dir).z != 0.0
  {
    (rect.k - Project(rect.plane, r.orig).z) / Project(rect.plane, r.dir).z
  }

  /** The hit point lies in the rectangle's plane. */
  lemma HitInPlane(rect: Rect, r: Ray, tMin: ExtReal, tMax: ExtReal)
    requires Hit(rect, r, tMin, tMax).Some?
    ensures Project(rect.plane, Hit(rect, r, tMin, tMax).value.p).z == rect.k
  {
    HitIsHitAt(rect, r, tMin, tMax);
    CrossingOnPlane(rect, r);
  }

  /** The hit point lies within both extents. */
  lemma HitWithinExtents(rect: Rect, r: Ray, tMin: ExtReal, tMax: ExtReal)
    requires Hit(rect, r, tMin, tMax).Some?
    ensures var q := Project(rect.plane, Hit(rect, r, tMin, tMax).value.p);
      rect.a0 <= q.x <= rect.a1 && rect.b0 <= q.y <= rect.b1
  {
    HitIsHitAt(rect, r, tMin, tMax);
    HitAtInside(rect, r, CrossingParameter(rect, r), OutwardNormal(rect.plane), tMin, tMax);
  }

  lemma HitIsHitAt(rect: Rect, r: Ray, tMin: ExtReal, tMax: ExtReal)
    ensures Project(rect.plane, r.dir).z == 0.0 ==> Hit(rect, r, tMin, tMax).None?
    ensures Project(rect.plane, r.dir).z != 0.0 ==>
      Hit(rect, r, tMin, tMax) == HitAt(rect, r, CrossingParameter(rect, r), OutwardNormal(rect.plane), tMin, tMax)
  {
  }

  lemma HitAtInside(rect: Rect, r: Ray, t: real, n: Vec3, tMin: ExtReal, tMax: ExtReal)
    requires HitAt(rect, r, t, n, tMin, tMax).Some?
    ensures var q := Project(rect.plane, HitAt(rect, r, t, n, tMin, tMax).value.p);
      q.z == Project(rect.plane, r.orig).z + t * Project(rect.plane, r.dir).z
      && rect.a0 <= q.x <= rect.a1 && rect.b0 <= q.y <= rect.b1
  {
    ProjectFacts(rect.plane, r.orig, r.dir, t);
  }

  lemma CrossingOnPlane(rect: Rect, r: Ray)
    requires Project(rect.plane, r.dir).z != 0.0
    ensures Project(rect.plane, r.At(CrossingParameter(rect, r))).z == rect.k
  {
    ProjectFacts(rect.plane, r.orig, r.dir, CrossingParameter(rect, r));
    CrossingMeetsPlane(rect.k, Project(rect.plane, r.orig).z, Project(rect.plane, r.dir).z);
  }

  lemma CrossingMeetsPlane(k: real, o: real, d: real)
    requires d != 0.0
    ensures o + (k - o) / d * d == k
  {
  }

  /** For a rectangle of positive extent the texture coordinates lie in [0, 1]. */
  lemma HitTextureCoordinates(rect: Rect, r: Ray, tMin: ExtReal, tMax: ExtReal)
    requires Hit(rect, r, tMin, tMax).Some?
    ensures rect.a0 < rect.a1 ==> 0.0 <= Hit(rect, r, tMin, tMax).value.u <= 1.0
    ensures rect.b0 < rect.b1 ==> 0.0 <= Hit(rect, r, tMin, tMax).value.v <= 1.0
  {
    var t := CrossingParameter(rect, r);
    HitIsHitAt(rect, r, tMin, tMax);
    HitAtTextureCoordinates(rect, r, t, OutwardNormal(rect.plane), tMin, tMax);
  }

  lemma HitAtTextureCoordinates(rect: Rect, r: Ray, t: real, n: Vec3, tMin: ExtReal, tMax: ExtReal)
    requires HitAt(rect, r, t, n, tMin, tMax).Some?
    ensures rect.a0 < rect.a1 ==> 0.0 <= HitAt(rect, r, t, n, tMin, tMax).value.u <= 1.0
    ensures rect.b0 < rect.b1 ==> 0.0 <= HitAt(rect, r, t, n, tMin, tMax).value.v <= 1.0
  {
    var x, y := HitAtCoordinates(rect, r, t, n, tMin, tMax);
    UnitQuotient(x, rect.a0, rect.a1);
    UnitQuotient(y, rect.b0, rect.b1);
  }

  /** The crossing point's coordinates in the plane, and the texture
      coordinates the record takes from them. */
  lemma HitAtCoordinates(rect: Rect, r: Ray, t: real, n: Vec3, tMin: ExtReal, tMax: ExtReal) returns (x: real, y: real)
    requires HitAt(rect, r, t, n, tMin, tMax).Some?
    ensures rect.a0 <= x <= rect.a1 && rect.b0 <= y <= rect.b1
    ensures HitAt(rect, r, t, n, tMin, tMax).value.u == Quot(x - rect.a0, rect.a1 - rect.a0)
    ensures HitAt(rect, r, t, n, tMin, tMax).value.v == Quot(y - rect.b0, rect.b1 - rect.b0)
  {
    var o, d := Project(rect.plane, r.orig), Project(rect.plane, r.dir);
    x, y := o.x + t * d.x, o.y + t * d.y;
  }

  lemma DivideWithinUnit(v: real, w: real)
    requires 0.0 <= v <= w && 0.0 < w
    ensures 0.0 <= v / w <= 1.0
  {
    var q := v / w;
    assert q * w == v;
    ScalePositive(q, 1.0, w);
    ScalePositive(0.0, q, w);
  }

  lemma ScalePositive(a: real, b: real, w: real)
    requires 0.0 < w
    ensures a > b ==> a * w > b * w
  {
    if a > b {
      assert (a - b) * w > 0.0;
    }
  }

  lemma UnitQuotient(x: real, lo: real, hi: real)
    requires lo <= x <= hi
    ensures 0.0 <= Quot(x - lo, hi - lo) <= 1.0
  {
    if hi != lo {
      DivideWithinUnit(x - lo, hi - lo);
    }
  }

  /** No hit when the ray runs parallel to the plane or crosses it outside
      the interval. */
  lemma MissOutsideInterval(rect: Rect, r: Ray, tMin: ExtReal, tMax: ExtReal)
    ensures Project(rect.plane, r.dir).z == 0.0 ==> Hit(rect, r, tMin, tMax).None?
    ensures var o, d := Project(rect.plane, r.orig), Project(rect.plane, r.dir);
      d.z != 0.0 && !Within((rect.k - o.z) / d.z, tMin, tMax) ==> Hit(rect, r, tMin, tMax).None?
  {
    if Project(rect.plane, r.dir).z != 0.0 {
      assert CrossingParameter(rect, r) == (rect.k - Project(rect.plane, r.orig).z) / Project(rect.plane, r.dir).z;
      MissOutsideCrossing(rect, r, tMin, tMax);
    }
  }

  lemma MissOutsideCrossing(rect: Rect, r: Ray, tMin: ExtReal, tMax: ExtReal)
    requires Project(rect.plane, r.dir).z != 0.0
    ensures !Within(CrossingParameter(rect, r), tMin, tMax) ==> Hit(rect, r, tMin, tMax).None?
  {
    HitIsHitAt(rect, r, tMin, tMax);
  }

  /** No hit when the crossing point is outside either extent. */
  lemma MissOutsideExtents(rect: Rect, r: Ray, tMin: ExtReal, tMax: ExtReal)
    requires Project(rect.plane, r.dir).z != 0.0
    ensures var q := Project(rect.plane, r.At(CrossingParameter(rect, r)));
      q.x < rect.a0 || rect.a1 < q.x || q.y < rect.b0 || rect.b1 < q.y ==> Hit(rect, r, tMin, tMax).None?
  {
    HitIsHitAt(rect, r, tMin, tMax);
    HitAtMissOutside(rect, r, CrossingParameter(rect, r), OutwardNormal(rect.plane), tMin, tMax);
  }

  lemma HitAtMissOutside(rect: Rect, r: Ray, t: real, n: Vec3, tMin: ExtReal, tMax: ExtReal)
    ensures var q := Project(rect.plane, r.At(t));
      q.x < rect.a0 || rect.a1 < q.x || q.y < rect.b0 || rect.b1 < q.y ==> HitAt(rect, r, t, n, tMin, tMax).None?
  {
    ProjectFacts(rect.plane, r.orig, r.dir, t);
  }
}
