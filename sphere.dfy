/** Spheres (src/sphere.rs): the quadratic of a ray against a ball and the
    rule that picks which of its two roots is the hit. The same rule serves
    the moving sphere, whose centre depends on the ray's time. */
module Spheres {
  import opened Vectors
  import opened Rays
  import opened Util
  import opened Aabbs
  import opened Materials
  import opened HitRecords

  /** `Sphere::new(center, radius, mat_ptr)`. */
  datatype Sphere = Sphere(center: Vec3, radius: real, mat: Material)

  /** The root choice: the nearer root `(-half_b - sqrtd) / a` when it lies
      in `[t_min, t_max]`, else the farther root `(-half_b + sqrtd) / a`
      when that one does, else no hit. */
  function NearestRoot(halfB: real, a: real, sqrtd: real, tMin: ExtReal, tMax: ExtReal): (root: Option<real>)
    requires a != 0.0
    ensures root.Some? ==> Within(root.value, tMin, tMax)
    ensures Within((-halfB - sqrtd) / a, tMin, tMax) ==> root == Some((-halfB - sqrtd) / a)
    ensures !Within((-halfB - sqrtd) / a, tMin, tMax) ==>
      root == if Within((-halfB + sqrtd) / a, tMin, tMax) then Some((-halfB + sqrtd) / a) else None
  {
    var root := (-halfB - sqrtd) / a;
    if !Within(root, tMin, tMax) then
      var root := (-halfB + sqrtd) / a;
      if !Within(root, tMin, tMax) then None else Some(root)
    else
      Some(root)
  }

  /** With a positive leading coefficient and a non-negative square root,
      the chosen root is the smallest root that lies in the interval. */
  lemma NearestRootIsSmallest(halfB: real, a: real, sqrtd: real, tMin: ExtReal, tMax: ExtReal)
    requires 0.0 < a && 0.0 <= sqrtd
    ensures var root := NearestRoot(halfB, a, sqrtd, tMin, tMax);
      (Within((-halfB - sqrtd) / a, tMin, tMax) || Within((-halfB + sqrtd) / a, tMin, tMax)) <==> root.Some?
    ensures var root := NearestRoot(halfB, a, sqrtd, tMin, tMax);
      forall t :: (t == (-halfB - sqrtd) / a || t == (-halfB + sqrtd) / a) && Within(t, tMin, tMax) && root.Some? ==>
        root.value <= t
  {
    DivMonotone(-halfB - sqrtd, -halfB + sqrtd, a);
  }

  lemma DivMonotone(x: real, y: real, a: real)
    requires 0.0 < a && x <= y
    ensures x / a <= y / a
  {
  }

  /** `half_b * half_b - a * c` for the quadratic `a t^2 + 2 half_b t + c`
      whose roots are where the ray meets the ball's surface. */
  function Discriminant(center: Vec3, radius: real, r: Ray): real {
    var oc := Sub(r.orig, center);
    var a := LengthSquared(r.dir);
    var halfB := Dot(oc, r.dir);
    var c := LengthSquared(oc) - radius * radius;
    halfB * halfB - a * c
  }

  /** A ray that starts inside or on the ball always has real roots. */
  lemma InsideHasRealRoots(center: Vec3, radius: real, r: Ray)
    requires LengthSquared(Sub(r.orig, center)) <= radius * radius
    ensures 0.0 <= Discriminant(center, radius, r)
  {
    var a := LengthSquared(r.dir);
    var c := LengthSquared(Sub(r.orig, center)) - radius * radius;
    DotSelfIsLengthSquared(r.dir, r.dir);
    assert 0.0 <= a * -c;
  }

  /** The intersection with the ball of the given centre and radius, as
      `Sphere::hit` computes it; the moving sphere passes its centre at
      the ray's time. */
  function HitBall(center: Vec3, radius: real, mat: Material, r: Ray, tMin: ExtReal, tMax: ExtReal,
                   sqrt: real -> real): (h: Option<HitRecord>)
  {
    var oc := Sub(r.orig, center);
    var a := LengthSquared(r.dir);
    var halfB := Dot(oc, r.dir);
    var discriminant := Discriminant(center, radius, r);
    if discriminant < 0.0 || a == 0.0 then None
    else
      match NearestRoot(halfB, a, sqrt(discriminant), tMin, tMax)
      case None => None
      case Some(root) =>
        var p := r.At(root);
        var outwardNormal := Div(Sub(p, center), radius);
        Some(HitRecord(p, Zero, mat, root, 0.0, 0.0, false).SetFaceNormal(r, outwardNormal))
  }

  /** Past the discriminant and zero-direction tests, a ball is hit exactly
      when `NearestRoot` finds a root, and at that root. */
  lemma HitBallTakesNearestRoot(center: Vec3, radius: real, mat: Material, r: Ray, tMin: ExtReal, tMax: ExtReal,
                                sqrt: real -> real)
    requires 0.0 <= Discriminant(center, radius, r) && LengthSquared(r.dir) != 0.0
    ensures var root := NearestRoot(Dot(Sub(r.orig, center), r.dir), LengthSquared(r.dir),
                                    sqrt(Discriminant(center, radius, r)), tMin, tMax);
      var h := HitBall(center, radius, mat, r, tMin, tMax, sqrt);
      h.Some? == root.Some? && (root.Some? ==> h.value.t == root.value)
  {
  }

  /** A ray with a zero direction misses every ball. */
  lemma ZeroDirectionMisses(center: Vec3, radius: real, mat: Material, r: Ray, tMin: ExtReal, tMax: ExtReal,
                            sqrt: real -> real)
    ensures r.dir == Zero ==> HitBall(center, radius, mat, r, tMin, tMax, sqrt).None?
  {
    if r.dir == Zero {
      assert LengthSquared(r.dir) == 0.0;
    }
  }

  /** `Sphere::hit`: given a true square root, a hit point lies on the
      sphere's surface, and a ray without direction never hits. */
  function Hit(s: Sphere, r: Ray, tMin: ExtReal, tMax: ExtReal, sqrt: real -> real): (h: Option<HitRecord>)
    ensures IsSqrt(sqrt) && h.Some? ==> LengthSquared(Sub(h.value.p, s.center)) == s.radius * s.radius
    ensures r.dir == Zero ==> h.None?
  {
    HitBallOnSurface(s.center, s.radius, s.mat, r, tMin, tMax, sqrt);
    ZeroDirectionMisses(s.center, s.radius, s.mat, r, tMin, tMax, sqrt);
    HitBall(s.center, s.radius, s.mat, r, tMin, tMax, sqrt)
  }

  /** The bounding box of a sphere: its centre plus and minus the radius on
      every axis. */
  function BoundingBox(s: Sphere): (b: Aabb)
    ensures 0.0 <= s.radius ==> Contains(b, Aabb(s.center, s.center))
  {
    var rad := Vec3(s.radius, s.radius, s.radius);
    Aabb(Sub(s.center, rad), Add(s.center, rad))
  }

  /** The box of centre ± radius holds every point of the ball, so the
      box test in front of it never rejects a ray that meets the ball. */
  lemma BoundingBoxBoundsBall(s: Sphere, p: Vec3)
    requires 0.0 <= s.radius && LengthSquared(Sub(p, s.center)) <= s.radius * s.radius
    ensures Contains(BoundingBox(s), Aabb(p, p))
  {
    BallInBox(s.center, s.radius, p);
  }

  /** A point within `radius` of `center` lies in the box `center ± radius`. */
  lemma BallInBox(center: Vec3, radius: real, p: Vec3)
    requires 0.0 <= radius && LengthSquared(Sub(p, center)) <= radius * radius
    ensures var rad := Vec3(radius, radius, radius);
      Contains(Aabb(Sub(center, rad), Add(center, rad)), Aabb(p, p))
  {
    var d := Sub(p, center);
    assert LengthSquared(d) == d.x * d.x + d.y * d.y + d.z * d.z;
    assert 0.0 <= d.x * d.x && 0.0 <= d.y * d.y && 0.0 <= d.z * d.z;
    assert d.x * d.x <= radius * radius && d.y * d.y <= radius * radius && d.z * d.z <= radius * radius;
    CoordinateBound(d.x, radius);
    CoordinateBound(d.y, radius);
    CoordinateBound(d.z, radius);
  }

  /** `x^2 <= r^2` with `r >= 0` puts `x` in `[-r, r]`. */
  lemma CoordinateBound(x: real, r: real)
    requires 0.0 <= r && x * x <= r * r
    ensures -r <= x <= r
  {
    SquareGrows(r, x);
    SquareGrows(r, -x);
  }

  lemma SquareGrows(r: real, x: real)
    requires 0.0 <= r
    ensures r < x ==> r * r < x * x
  {
    if r < x {
      assert 0.0 <= r * (x - r) && 0.0 < x * (x - r);
      assert x * x - r * r == r * (x - r) + x * (x - r);
    }
  }

  /** What a hit promises: no hit when the discriminant is negative; a hit
      parameter inside the queried interval, the nearer root whenever that
      one is inside; the point on the ray at that parameter; the ball's
      material; a normal `(p - center) / radius` turned against the ray. */
  lemma HitBallFacts(center: Vec3, radius: real, mat: Material, r: Ray, tMin: ExtReal, tMax: ExtReal,
                     sqrt: real -> real)
    ensures Discriminant(center, radius, r) < 0.0 ==> HitBall(center, radius, mat, r, tMin, tMax, sqrt).None?
    ensures var h := HitBall(center, radius, mat, r, tMin, tMax, sqrt);
      h.Some? ==>
        && Within(h.value.t, tMin, tMax)
        && h.value.p == r.At(h.value.t)
        && h.value.mat == mat
        && Dot(r.dir, h.value.normal) <= 0.0
        && (h.value.normal == Div(Sub(h.value.p, center), radius)
            || h.value.normal == Neg(Div(Sub(h.value.p, center), radius)))
    ensures var d := Discriminant(center, radius, r);
      var a := LengthSquared(r.dir);
      var halfB := Dot(Sub(r.orig, center), r.dir);
      0.0 <= d && a != 0.0 && Within((-halfB - sqrt(d)) / a, tMin, tMax) ==>
        HitBall(center, radius, mat, r, tMin, tMax, sqrt).Some? &&
        HitBall(center, radius, mat, r, tMin, tMax, sqrt).value.t == (-halfB - sqrt(d)) / a
    ensures var d := Discriminant(center, radius, r);
      var a := LengthSquared(r.dir);
      var halfB := Dot(Sub(r.orig, center), r.dir);
      0.0 <= d && a != 0.0 && !Within((-halfB - sqrt(d)) / a, tMin, tMax)
        && !Within((-halfB + sqrt(d)) / a, tMin, tMax) ==>
        HitBall(center, radius, mat, r, tMin, tMax, sqrt).None?
  {
  }

  /** Given a true square root, a returned parameter is a root of the
      quadratic `a t^2 + 2 half_b t + c`. */
  lemma HitBallSolvesQuadratic(center: Vec3, radius: real, mat: Material, r: Ray, tMin: ExtReal, tMax: ExtReal,
                               sqrt: real -> real)
    requires IsSqrt(sqrt)
    requires HitBall(center, radius, mat, r, tMin, tMax, sqrt).Some?
    ensures var t := HitBall(center, radius, mat, r, tMin, tMax, sqrt).value.t;
      var oc := Sub(r.orig, center);
      LengthSquared(r.dir) * t * t + 2.0 * Dot(oc, r.dir) * t + (LengthSquared(oc) - radius * radius) == 0.0
  {
    var oc := Sub(r.orig, center);
    var d := Discriminant(center, radius, r);
    var t := HitBallRoot(center, radius, mat, r, tMin, tMax, sqrt);
    var sqrtd := sqrt(d);
    assert sqrtd * sqrtd == d;
    QuadraticRoot(LengthSquared(r.dir), Dot(oc, r.dir), LengthSquared(oc) - radius * radius, sqrtd, t);
  }

  /** Given a true square root, the hit point lies on the sphere's surface. */
  lemma HitBallOnSurface(center: Vec3, radius: real, mat: Material, r: Ray, tMin: ExtReal, tMax: ExtReal,
                         sqrt: real -> real)
    ensures IsSqrt(sqrt) && HitBall(center, radius, mat, r, tMin, tMax, sqrt).Some? ==>
      LengthSquared(Sub(HitBall(center, radius, mat, r, tMin, tMax, sqrt).value.p, center)) == radius * radius
  {
    if IsSqrt(sqrt) && HitBall(center, radius, mat, r, tMin, tMax, sqrt).Some? {
      HitBallOnSurfaceStep(center, radius, mat, r, tMin, tMax, sqrt);
    }
  }

  lemma HitBallOnSurfaceStep(center: Vec3, radius: real, mat: Material, r: Ray, tMin: ExtReal, tMax: ExtReal,
                             sqrt: real -> real)
    requires IsSqrt(sqrt)
    requires HitBall(center, radius, mat, r, tMin, tMax, sqrt).Some?
    ensures LengthSquared(Sub(HitBall(center, radius, mat, r, tMin, tMax, sqrt).value.p, center)) == radius * radius
  {
    var oc := Sub(r.orig, center);
    var t := HitBallRoot(center, radius, mat, r, tMin, tMax, sqrt);
    HitBallSolvesQuadratic(center, radius, mat, r, tMin, tMax, sqrt);
    ExpandAlongRay(oc, r.dir, t);
    assert Sub(r.At(t), center) == Add(oc, Scale(t, r.dir));
    OnSurface(LengthSquared(oc), Dot(oc, r.dir), LengthSquared(r.dir), radius * radius, t);
  }

  lemma OnSurface(ocLen: real, halfB: real, a: real, rad2: real, t: real)
    requires a * t * t + 2.0 * halfB * t + (ocLen - rad2) == 0.0
    ensures ocLen + 2.0 * halfB * t + a * t * t == rad2
  {
  }

  /** The structural facts behind a hit: a non-negative discriminant, a
      non-zero leading coefficient, and a parameter that is one of the two
      roots. */
  lemma HitBallRoot(center: Vec3, radius: real, mat: Material, r: Ray, tMin: ExtReal, tMax: ExtReal,
                    sqrt: real -> real) returns (t: real)
    requires HitBall(center, radius, mat, r, tMin, tMax, sqrt).Some?
    ensures t == HitBall(center, radius, mat, r, tMin, tMax, sqrt).value.t
    ensures HitBall(center, radius, mat, r, tMin, tMax, sqrt).value.p == r.At(t)
    ensures var d := Discriminant(center, radius, r);
      var a := LengthSquared(r.dir);
      var halfB := Dot(Sub(r.orig, center), r.dir);
      && 0.0 <= d && a != 0.0
      && d == halfB * halfB - a * (LengthSquared(Sub(r.orig, center)) - radius * radius)
      && (t == (-halfB - sqrt(d)) / a || t == (-halfB + sqrt(d)) / a)
  {
    t := HitBall(center, radius, mat, r, tMin, tMax, sqrt).value.t;
  }

  /** Either root `(-h -+ s) / a` of `a t^2 + 2 h t + c`, for `s^2 = h^2 - a c`. */
  lemma QuadraticRoot(a: real, h: real, c: real, s: real, t: real)
    requires a != 0.0 && s * s == h * h - a * c
    requires t == (-h - s) / a || t == (-h + s) / a
    ensures a * t * t + 2.0 * h * t + c == 0.0
  {
    var u := a * t + h;
    assert u == -s || u == s;
    assert u * u == s * s;
    assert u * u == a * (a * t * t + 2.0 * h * t) + h * h;
    assert a * (a * t * t + 2.0 * h * t + c) == 0.0;
  }

  /** `|oc + t d|^2 = |oc|^2 + 2 t (oc . d) + t^2 |d|^2`. */
  lemma ExpandAlongRay(oc: Vec3, d: Vec3, t: real)
    ensures LengthSquared(Add(oc, Scale(t, d))) == LengthSquared(oc) + 2.0 * Dot(oc, d) * t + LengthSquared(d) * t * t
  {
    ExpandSquare(oc.x, d.x, t);
    ExpandSquare(oc.y, d.y, t);
    ExpandSquare(oc.z, d.z, t);
  }

  lemma ExpandSquare(x: real, y: real, t: real)
    ensures (x + t * y) * (x + t * y) == x * x + 2.0 * (x * y) * t + (y * y) * t * t
  {
  }
}
