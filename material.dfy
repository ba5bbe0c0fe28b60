/** Textures and materials as values (src/material.rs, src/texture.rs), with
    Schlick's reflectance polynomial of `Dielectric::reflectance`. */
module Materials {
  import opened Vectors
  import opened Numerics

  /** A `dyn Texture`: a solid colour, or a procedural pattern whose colour
      the caller supplies (`Kit.pattern`). */
  datatype Texture = SolidColor(colorValue: Vec3) | Patterned(id: nat)

  /** `Texture::value(u, v, p)`. */
  function TextureValue(tex: Texture, u: real, v: real, p: Vec3, kit: Kit): (c: Vec3)
    ensures tex.SolidColor? ==> c == tex.colorValue
  {
    match tex
    case SolidColor(colorValue) => colorValue
    case Patterned(id) => kit.pattern(id, u, v, p)
  }

  /** A `dyn Material`. `DiffuseLight` and `Isotropic` (spelt `Isotrophic`
      where the medium builds it) are the two materials the source uses
      beyond the three it shows. */
  datatype Material =
    | Lambertian(albedo: Vec3)
    | Metal(albedo: Vec3, fuzz: real)
    | Dielectric(ir: real)
    | DiffuseLight(emit: Texture)
    | Isotropic(phase: Texture)

  /** `(1 - n) / (1 + n)` squared: the reflectance at normal incidence. It
      is never negative, and it vanishes when the index matches air's. */
  function R0(refIdx: real): (r: real)
    ensures 0.0 <= r
    ensures refIdx == 1.0 ==> r == 0.0
  {
    var r0 := Quot(1.0 - refIdx, 1.0 + refIdx);
    r0 * r0
  }

  /** `x.powi(5)`. */
  function Pow5(x: real): real {
    x * x * x * x * x
  }

  /** Schlick's approximation, `r0 + (1 - r0) * (1 - cosine)^5`. At normal
      incidence (cosine 1) it is exactly `r0`; at grazing incidence
      (cosine 0) everything is reflected. */
  function Reflectance(cosine: real, refIdx: real): (reflectance: real)
    ensures cosine == 1.0 ==> reflectance == R0(refIdx)
    ensures cosine == 0.0 ==> reflectance == 1.0
  {
    assert Pow5(0.0) == 0.0 && Pow5(1.0) == 1.0;
    var r0 := R0(refIdx);
    r0 + (1.0 - r0) * Pow5(1.0 - cosine)
  }

  /** For a positive index and a cosine in [0, 1] the reflectance lies
      between the normal reflectance and 1. */
  lemma ReflectanceBounds(cosine: real, refIdx: real)
    requires 0.0 < refIdx && 0.0 <= cosine <= 1.0
    ensures R0(refIdx) <= Reflectance(cosine, refIdx) <= 1.0
  {
    R0Bounds(refIdx);
    Pow5Unit(1.0 - cosine);
    var r0, q := R0(refIdx), Pow5(1.0 - cosine);
    assert Reflectance(cosine, refIdx) == r0 + (1.0 - r0) * q;
    Blend(r0, q);
  }

  /** Moving from `r0` towards 1 by a fraction `q` in [0, 1] stays between them. */
  lemma Blend(r0: real, q: real)
    requires 0.0 <= r0 <= 1.0 && 0.0 <= q <= 1.0
    ensures r0 <= r0 + (1.0 - r0) * q <= 1.0
  {
    UnitProduct(1.0 - r0, q);
    UnitProduct(1.0 - r0, 1.0 - q);
    assert 1.0 - (r0 + (1.0 - r0) * q) == (1.0 - r0) * (1.0 - q);
  }

  /** A product of a non-negative factor with one in [0, 1] is at most
      the first factor. */
  lemma UnitProduct(a: real, b: real)
    requires 0.0 <= a && 0.0 <= b <= 1.0
    ensures 0.0 <= a * b <= a
  {
    assert a * (1.0 - b) >= 0.0;
  }

  lemma Pow5Unit(x: real)
    requires 0.0 <= x <= 1.0
    ensures 0.0 <= Pow5(x) <= 1.0
  {
    UnitProduct(x, x);
    UnitProduct(x * x, x);
    UnitProduct(x * x * x, x);
    UnitProduct(x * x * x * x, x);
  }

  /** For a positive index the normal reflectance lies in [0, 1). */
  lemma R0Bounds(refIdx: real)
    requires 0.0 < refIdx
    ensures 0.0 <= R0(refIdx) < 1.0
  {
    var q := Quot(1.0 - refIdx, 1.0 + refIdx);
    assert q * (1.0 + refIdx) == 1.0 - refIdx;
    assert -1.0 < q < 1.0;
    SquareBelowOne(q);
  }

  lemma SquareBelowOne(q: real)
    requires -1.0 < q < 1.0
    ensures 0.0 <= q * q < 1.0
  {
    var m := if q >= 0.0 then q else -q;
    assert q * q == m * m;
    UnitProduct(m, m);
  }

  /** `emitted(u, v, p)`: a diffuse light gives its texture's colour, every
      other material emits black. */
  function Emitted(m: Material, u: real, v: real, p: Vec3, kit: Kit): (c: Vec3)
    ensures !m.DiffuseLight? ==> c == Zero
    ensures m.DiffuseLight? && m.emit.SolidColor? ==> c == m.emit.colorValue
  {
    match m
    case DiffuseLight(emit) => TextureValue(emit, u, v, p, kit)
    case _ => Zero
  }
}
