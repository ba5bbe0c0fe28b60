/** Rays with an origin, a direction and a time (src/ray.rs). `Ray::new`
    is the datatype constructor; `origin()`, `direction()` and `time()`
    are its fields `orig`, `dir` and `tm`. */
module Rays {
  import opened Vectors

  datatype Ray = Ray(orig: Vec3, dir: Vec3, tm: real) {

    /** `at(t)`: the point `orig + t * dir`. */
    function At(t: real): Vec3 {
      Add(orig, Scale(t, dir))
    }
  }

  lemma AtZero(r: Ray)
    ensures r.At(0.0) == r.orig
  {
  }

  /** Points along a ray are affine in t. */
  lemma AtAffine(r: Ray, t: real, s: real)
    ensures Sub(r.At(t), r.At(s)) == Scale(t - s, r.dir)
  {
  }

  /** `at(1) - at(0)` is the direction, so the ray is recovered from two of its points. */
  lemma AtRecoversRay(r: Ray)
    ensures Ray(r.At(0.0), Sub(r.At(1.0), r.At(0.0)), r.tm) == r
  {
    AtAffine(r, 1.0, 0.0);
  }
}
