/** What the model takes from outside the files it covers: the numeric
    helpers the source calls but does not define here (`sqrt`, `reflect`,
    `refract`, `near_zero`, the procedural textures), and the random draws
    (`random_unit_vector`, `random_f64`, `random_f64().ln()`), which enter
    as plain values. */
module Numerics {
  import opened Vectors

  /** The helpers, passed as functions. `sqrt` is `f64::sqrt`; `reflect`,
      `refract` and `nearZero` are the `vec3` helpers of those names;
      `pattern(id, u, v, p)` is the colour of procedural texture `id`. */
  datatype Kit = Kit(
    sqrt: real -> real,
    reflect: (Vec3, Vec3) -> Vec3,
    refract: (Vec3, Vec3, real) -> Vec3,
    nearZero: Vec3 -> bool,
    pattern: (nat, real, real, Vec3) -> Vec3)

  /** The random values one scattering event draws: a `random_unit_vector`,
      a `random_f64` in [0, 1) and a `random_f64().ln()`. */
  datatype Sample = Sample(unitVector: Vec3, uniform: real, lnUniform: real)

  /** The ranges the source's generators keep to. */
  predicate ValidSample(s: Sample) {
    0.0 <= s.uniform < 1.0 && s.lnUniform <= 0.0
  }
}
