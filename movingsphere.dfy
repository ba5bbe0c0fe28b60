/** Spheres whose centre moves linearly between two times
    (src/movingsphere.rs). */
module MovingSpheres {
  import opened Vectors
  import opened Rays
  import opened Util
  import opened Aabbs
  import opened Materials
  import opened HitRecords
  import Spheres

  /** `MovingSphere::new(center0, center1, time0, time1, radius, mat_ptr)`. */
  datatype MovingSphere = MovingSphere(
    center0: Vec3, center1: Vec3, time0: real, time1: real, radius: real, mat: Material)
  {
    /** `center(time)`: linear interpolation from `center0` at `time0` to
        `center1` at `time1`. When the two times coincide the source divides
        by zero; here the quotient reads as 0 and the centre stays put. */
    function Center(time: real): (c: Vec3)
      ensures time == time0 ==> c == center0
      ensures time0 != time1 && time == time1 ==> c == center1
      ensures time0 == time1 ==> c == center0
    {
      Add(center0, Scale(Quot(time - time0, time1 - time0), Sub(center1, center0)))
    }
  }

  /** `hit`: the sphere's root choice around the centre at the ray's time.
      Given a true square root, a hit point lies on the sphere as it stands
      at the ray's time. */
  function Hit(m: MovingSphere, r: Ray, tMin: ExtReal, tMax: ExtReal, sqrt: real -> real): (h: Option<HitRecord>)
    ensures IsSqrt(sqrt) && h.Some? ==> LengthSquared(Sub(h.value.p, m.Center(r.tm))) == m.radius * m.radius
  {
    Spheres.HitBallOnSurface(m.Center(r.tm), m.radius, m.mat, r, tMin, tMax, sqrt);
    Spheres.HitBall(m.Center(r.tm), m.radius, m.mat, r, tMin, tMax, sqrt)
  }

  /** The box around the sphere at one instant. */
  function BoxAt(m: MovingSphere, time: real): (b: Aabb)
    ensures 0.0 <= m.radius ==> Contains(b, Aabb(m.Center(time), m.Center(time)))
  {
    var rad := Vec3(m.radius, m.radius, m.radius);
    Aabb(Sub(m.Center(time), rad), Add(m.Center(time), rad))
  }

  /** The box at `time` holds every point of the ball as it stands then. */
  lemma BoxAtBoundsBall(m: MovingSphere, time: real, p: Vec3)
    requires 0.0 <= m.radius && LengthSquared(Sub(p, m.Center(time))) <= m.radius * m.radius
    ensures Contains(BoxAt(m, time), Aabb(p, p))
  {
    Spheres.BallInBox(m.Center(time), m.radius, p);
  }

  /** `bounding_box(time0, time1)`: always present, the union of the boxes
      at the two times. */
  function BoundingBox(m: MovingSphere, time0: real, time1: real): (b: Option<Aabb>)
    ensures b.Some?
    ensures Contains(b.value, BoxAt(m, time0)) && Contains(b.value, BoxAt(m, time1))
  {
    Some(SurroundingBox(BoxAt(m, time0), BoxAt(m, time1)))
  }

  /** For a non-negative radius each per-time box is well formed: its
      minimum corner is below its maximum corner on every axis. */
  lemma BoxAtOrdered(m: MovingSphere, time: real)
    requires 0.0 <= m.radius
    ensures var b := BoxAt(m, time);
      b.minimum.x <= b.maximum.x && b.minimum.y <= b.maximum.y && b.minimum.z <= b.maximum.z
  {
  }

  /** The moving sphere hits as a fixed sphere would at the ray's time: no
      hit on a negative discriminant or with both roots outside the
      interval, otherwise the nearer root in range, on the ray, with zero
      texture coordinates. */
  lemma HitFacts(m: MovingSphere, r: Ray, tMin: ExtReal, tMax: ExtReal, sqrt: real -> real)
    ensures Hit(m, r, tMin, tMax, sqrt) == Spheres.Hit(Spheres.Sphere(m.Center(r.tm), m.radius, m.mat), r, tMin, tMax, sqrt)
    ensures Spheres.Discriminant(m.Center(r.tm), m.radius, r) < 0.0 ==> Hit(m, r, tMin, tMax, sqrt).None?
    ensures var h := Hit(m, r, tMin, tMax, sqrt);
      h.Some? ==>
        && Within(h.value.t, tMin, tMax) && h.value.p == r.At(h.value.t)
        && h.value.u == 0.0 && h.value.v == 0.0 && h.value.mat == m.mat
  {
    Spheres.HitBallFacts(m.Center(r.tm), m.radius, m.mat, r, tMin, tMax, sqrt);
  }
}
