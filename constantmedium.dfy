/** `ConstantMedium` (src/constantmedium.rs): a volume of constant density
    inside a boundary object, which scatters with an isotropic phase
    function at a sampled distance. */
module ConstantMedia {
  import opened Vectors
  import opened Rays
  import opened Util
  import opened Materials
  import opened HitRecords
  import opened Hittables
  import Spheres

  /** `ConstantMedium::from_texture(boundary, d, a)`: an isotropic phase
      function over the texture and `neg_inv_density == -1/d`. A zero
      density is read as `neg_inv_density == 0`. */
  function FromTexture(boundary: Hittable, d: real, a: Texture): (m: Hittable)
    ensures m.Medium? && m.boundary == boundary && m.phase == Isotropic(a)
    ensures d != 0.0 ==> m.negInvDensity * d == -1.0
    ensures 0.0 < d ==> m.negInvDensity < 0.0
  {
    Medium(boundary, Isotropic(a), Quot(-1.0, d))
  }

  /** `ConstantMedium::from_color(boundary, d, c)`: as `FromTexture` with a
      solid colour. */
  function FromColor(boundary: Hittable, d: real, c: Vec3): (m: Hittable)
    ensures m.Medium? && m.boundary == boundary && m.phase == Isotropic(SolidColor(c))
    ensures d != 0.0 ==> m.negInvDensity * d == -1.0
    ensures 0.0 < d ==> m.negInvDensity < 0.0
  {
    FromTexture(boundary, d, SolidColor(c))
  }

  /** `ConstantMedium::hit`: the two boundary queries, then the clipping
      and sampling. */
  method Hit(boundary: Hittable, phase: Material, negInvDensity: real, r: Ray, tMin: ExtReal, tMax: ExtReal,
             sqrt: real -> real, lnU: real) returns (result: Option<HitRecord>)
    ensures result == MediumHit(boundary, phase, negInvDensity, r, tMin, tMax, sqrt, lnU)
  {
    MediumHitMisses(boundary, phase, negInvDensity, r, tMin, tMax, sqrt, lnU);
    var rec1 := Hittables.Hit(boundary, r, NegInf, PosInf, sqrt, lnU);
    if rec1.None? {
      return None;
    }
    var rec2 := Hittables.Hit(boundary, r, Finite(rec1.value.t + 0.0001), PosInf, sqrt, lnU);
    if rec2.None? {
      return None;
    }
    MediumHitAfterCrossings(boundary, phase, negInvDensity, r, tMin, tMax, sqrt, lnU, rec1.value.t, rec2.value.t);
    result := Sample(rec1.value.t, rec2.value.t, phase, negInvDensity, r, tMin, tMax, sqrt, lnU);
  }

  /** A miss of either boundary query is a miss of the medium. */
  lemma MediumHitMisses(boundary: Hittable, phase: Material, negInvDensity: real, r: Ray, tMin: ExtReal,
                        tMax: ExtReal, sqrt: real -> real, lnU: real)
    ensures var rec1 := Hittables.Hit(boundary, r, NegInf, PosInf, sqrt, lnU);
      || rec1.None?
      || Hittables.Hit(boundary, r, Finite(rec1.value.t + 0.0001), PosInf, sqrt, lnU).None?
      ==> MediumHit(boundary, phase, negInvDensity, r, tMin, tMax, sqrt, lnU).None?
  {
  }

  /** Once both boundary queries have hit, the medium's answer is the
      sampling step on their two parameters. */
  lemma MediumHitAfterCrossings(boundary: Hittable, phase: Material, negInvDensity: real, r: Ray, tMin: ExtReal,
                                tMax: ExtReal, sqrt: real -> real, lnU: real, t1: real, t2: real)
    requires var rec1 := Hittables.Hit(boundary, r, NegInf, PosInf, sqrt, lnU);
      rec1.Some? && rec1.value.t == t1
    requires var rec2 := Hittables.Hit(boundary, r, Finite(t1 + 0.0001), PosInf, sqrt, lnU);
      rec2.Some? && rec2.value.t == t2
    ensures MediumHit(boundary, phase, negInvDensity, r, tMin, tMax, sqrt, lnU)
      == MediumSample(t1, t2, phase, negInvDensity, r, tMin, tMax, sqrt, lnU)
  {
  }

  /** The clipping and sampling steps of `ConstantMedium::hit`, with the
      crossing times overwritten as the source overwrites `rec1.t` and
      `rec2.t`. */
  method Sample(rec1t: real, rec2t: real, phase: Material, negInvDensity: real, r: Ray, tMin: ExtReal, tMax: ExtReal,
                sqrt: real -> real, lnU: real) returns (result: Option<HitRecord>)
    ensures result == MediumSample(rec1t, rec2t, phase, negInvDensity, r, tMin, tMax, sqrt, lnU)
  {
    var t1 := Finite(rec1t);
    var t2 := Finite(rec2t);
    if Less(t1, tMin) {
      t1 := tMin;
    }
    if Less(tMax, t2) {
      t2 := tMax;
    }
    if !Less(t1, t2) {
      return None;
    }
    var entry := t1.value;
    if entry < 0.0 {
      entry := 0.0;
    }
    var rayLength := Length(r.dir, sqrt);
    var distanceInsideBoundary := DistanceInside(entry, t2.value, rayLength);
    var hitDistance := negInvDensity * lnU;
    if hitDistance < distanceInsideBoundary || rayLength == 0.0 {
      return None;
    }
    var t := Advance(entry, hitDistance, rayLength);
    result := Some(HitRecord(r.At(t), Vec3(1.0, 0.0, 0.0), phase, t, 0.0, 0.0, true));
  }

  /** A medium's record carries the point on the ray at its `t`, the fixed
      normal `(1, 0, 0)` marked front-facing, zero texture coordinates and
      the phase function; it starts no earlier than the clipped entry,
      clamped to zero. */
  lemma SampleRecordFacts(t1: real, t2: real, phase: Material, negInvDensity: real, r: Ray, tMin: ExtReal, tMax: ExtReal,
                          sqrt: real -> real, lnU: real)
    requires IsSqrt(sqrt) && 0.0 <= negInvDensity * lnU
    requires MediumSample(t1, t2, phase, negInvDensity, r, tMin, tMax, sqrt, lnU).Some?
    ensures var rec := MediumSample(t1, t2, phase, negInvDensity, r, tMin, tMax, sqrt, lnU).value;
      && rec.p == r.At(rec.t) && rec.normal == Vec3(1.0, 0.0, 0.0) && rec.frontFace
      && rec.u == 0.0 && rec.v == 0.0 && rec.mat == phase
      && 0.0 <= rec.t && !Less(Finite(rec.t), Max(tMin, Finite(t1)))
  {
    var entry := if Less(Finite(t1), tMin) then tMin else Finite(t1);
    var start := if entry.value < 0.0 then 0.0 else entry.value;
    var rayLength := Length(r.dir, sqrt);
    var hitDistance := negInvDensity * lnU;
    DivideNonNegative(hitDistance, rayLength);
  }

  lemma DivideNonNegative(a: real, b: real)
    requires 0.0 <= a && 0.0 < b
    ensures 0.0 <= a / b
  {
  }

  /** The reported `t` is never before the clipped exit `min(t2, t_max)`:
      a hit is reported only when the sampled distance reaches past the
      boundary's far side. */
  lemma SampleBeyondExit(t1: real, t2: real, phase: Material, negInvDensity: real, r: Ray, tMin: ExtReal, tMax: ExtReal,
                         sqrt: real -> real, lnU: real)
    requires IsSqrt(sqrt)
    requires MediumSample(t1, t2, phase, negInvDensity, r, tMin, tMax, sqrt, lnU).Some?
    ensures !Less(Finite(MediumSample(t1, t2, phase, negInvDensity, r, tMin, tMax, sqrt, lnU).value.t), Min(tMax, Finite(t2)))
  {
    var entry := if Less(Finite(t1), tMin) then tMin else Finite(t1);
    var exit := if Less(tMax, Finite(t2)) then tMax else Finite(t2);
    var start := if entry.value < 0.0 then 0.0 else entry.value;
    var rayLength := Length(r.dir, sqrt);
    var hitDistance := negInvDensity * lnU;
    PastExit(start, exit.value, rayLength, hitDistance);
  }

  lemma PastExit(start: real, exit: real, len: real, hitDistance: real)
    requires 0.0 < len && (exit - start) * len <= hitDistance
    ensures exit <= start + hitDistance / len
  {
    var q := hitDistance / len;
    assert q * len == hitDistance;
    assert (exit - start) * len <= q * len;
  }

  /** With a positive density and `ln(U) <= 0` the sampled distance is
      non-negative. */
  lemma HitDistanceNonNegative(boundary: Hittable, d: real, c: Vec3, lnU: real)
    requires 0.0 < d && lnU <= 0.0
    ensures 0.0 <= FromColor(boundary, d, c).negInvDensity * lnU
  {
    NonPositiveProduct(FromColor(boundary, d, c).negInvDensity, lnU);
  }

  lemma NonPositiveProduct(a: real, b: real)
    requires a <= 0.0 && b <= 0.0
    ensures 0.0 <= a * b
  {
  }

  /** The unit ball at the origin crossed by a ray from `(0, 0, -5)` along
      `+z`: it enters at 4 and leaves at 6. */
  lemma BallCrossings(ball: Hittable, r: Ray, sqrt: real -> real, mat: Material, lnU: real)
    requires ball == SphereObj(Spheres.Sphere(Zero, 1.0, mat))
    requires r.orig == Vec3(0.0, 0.0, -5.0) && r.dir == Vec3(0.0, 0.0, 1.0) && sqrt(1.0) == 1.0
    ensures var rec1 := Hittables.Hit(ball, r, NegInf, PosInf, sqrt, lnU);
      var rec2 := Hittables.Hit(ball, r, Finite(4.0001), PosInf, sqrt, lnU);
      rec1.Some? && rec1.value.t == 4.0 && rec2.Some? && rec2.value.t == 6.0
  {
    var s := Spheres.Sphere(Zero, 1.0, mat);
    SphereObjHitIsBall(s, r, NegInf, PosInf, sqrt, lnU);
    SphereObjHitIsBall(s, r, Finite(4.0001), PosInf, sqrt, lnU);
    BallRoots();
    BallRoot(r, sqrt, mat, NegInf, 4.0);
    BallRoot(r, sqrt, mat, Finite(4.0001), 6.0);
  }

  lemma SphereObjHitIsBall(s: Spheres.Sphere, r: Ray, tMin: ExtReal, tMax: ExtReal, sqrt: real -> real, lnU: real)
    ensures Hittables.Hit(SphereObj(s), r, tMin, tMax, sqrt, lnU) == Spheres.HitBall(s.center, s.radius, s.mat, r, tMin, tMax, sqrt)
  {
  }

  lemma BallRoots()
    ensures Spheres.NearestRoot(-5.0, 1.0, 1.0, NegInf, PosInf) == Some(4.0)
    ensures Spheres.NearestRoot(-5.0, 1.0, 1.0, Finite(4.0001), PosInf) == Some(6.0)
  {
  }

  lemma BallRoot(r: Ray, sqrt: real -> real, mat: Material, tMin: ExtReal, t: real)
    requires r.orig == Vec3(0.0, 0.0, -5.0) && r.dir == Vec3(0.0, 0.0, 1.0) && sqrt(1.0) == 1.0
    requires Spheres.NearestRoot(-5.0, 1.0, 1.0, tMin, PosInf) == Some(t)
    ensures var h := Spheres.HitBall(Zero, 1.0, mat, r, tMin, PosInf, sqrt);
      h.Some? && h.value.t == t
  {
    TestRay(r);
    Spheres.HitBallTakesNearestRoot(Zero, 1.0, mat, r, tMin, PosInf, sqrt);
  }

  lemma TestRay(r: Ray)
    requires r.orig == Vec3(0.0, 0.0, -5.0) && r.dir == Vec3(0.0, 0.0, 1.0)
    ensures Spheres.Discriminant(Zero, 1.0, r) == 1.0
    ensures LengthSquared(r.dir) == 1.0
    ensures Dot(Sub(r.orig, Zero), r.dir) == -5.0
  {
    var oc := Sub(r.orig, Zero);
    assert oc == Vec3(0.0, 0.0, -5.0);
    assert LengthSquared(oc) == 25.0;
  }

  /** The reported `t` can lie beyond `t_max`: with the ball of
      `BallCrossings` queried on `[0.001, 5]`, density 1 and `ln(U) = -3`,
      the entry is 4, the clipped exit 5, and `t = 7`. */
  lemma HitCanExceedTMax(ball: Hittable, r: Ray, sqrt: real -> real, mat: Material)
    requires ball == SphereObj(Spheres.Sphere(Zero, 1.0, mat))
    requires r.orig == Vec3(0.0, 0.0, -5.0) && r.dir == Vec3(0.0, 0.0, 1.0) && sqrt(1.0) == 1.0
    ensures var rec := MediumHit(ball, Isotropic(SolidColor(Zero)), -1.0, r, Finite(0.001), Finite(5.0), sqrt, -3.0);
      rec.Some? && rec.value.t == 7.0 && Less(Finite(5.0), Finite(rec.value.t))
  {
    var phase := Isotropic(SolidColor(Zero));
    BallMediumSamples(ball, r, sqrt, mat, phase);
    SampleAtSeven(r, sqrt, phase);
  }

  lemma BallMediumSamples(ball: Hittable, r: Ray, sqrt: real -> real, mat: Material, phase: Material)
    requires ball == SphereObj(Spheres.Sphere(Zero, 1.0, mat))
    requires r.orig == Vec3(0.0, 0.0, -5.0) && r.dir == Vec3(0.0, 0.0, 1.0) && sqrt(1.0) == 1.0
    ensures MediumHit(ball, phase, -1.0, r, Finite(0.001), Finite(5.0), sqrt, -3.0)
      == MediumSample(4.0, 6.0, phase, -1.0, r, Finite(0.001), Finite(5.0), sqrt, -3.0)
  {
    BallCrossings(ball, r, sqrt, mat, -3.0);
    MediumHitAfterCrossings(ball, phase, -1.0, r, Finite(0.001), Finite(5.0), sqrt, -3.0, 4.0, 6.0);
  }

  lemma SampleAtSeven(r: Ray, sqrt: real -> real, phase: Material)
    requires r.dir == Vec3(0.0, 0.0, 1.0) && sqrt(1.0) == 1.0
    ensures var rec := MediumSample(4.0, 6.0, phase, -1.0, r, Finite(0.001), Finite(5.0), sqrt, -3.0);
      rec.Some? && rec.value.t == 7.0
  {
    assert LengthSquared(r.dir) == 1.0;
    assert Length(r.dir, sqrt) == 1.0;
  }
}
