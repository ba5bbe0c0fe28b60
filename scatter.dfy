/** `Material::scatter` for each material (src/material.rs): whether the
    incoming ray is absorbed or scattered, and with which attenuation. */
module Scattering {
  import opened Vectors
  import opened Rays
  import opened Util
  import opened Numerics
  import opened Materials
  import opened HitRecords

  /** The `(attenuation, scattered)` pair a scattering material returns. */
  datatype Scattered = Scattered(attenuation: Vec3, scattered: Ray)

  /** `f64::min` on two ordinary numbers. */
  function MinReal(a: real, b: real): real {
    if a < b then a else b
  }

  /** The refraction ratio: the reciprocal of the index on a front-face
      hit, the index itself from inside. */
  function RefractionRatio(ir: real, frontFace: bool): (ratio: real)
    ensures ir != 0.0 && frontFace ==> ratio * ir == 1.0
    ensures !frontFace ==> ratio == ir
  {
    if frontFace then Quot(1.0, ir) else ir
  }

  /** `Lambertian::scatter`: `normal + random_unit_vector()`, replaced by the
      normal itself when that sum is nearly zero. It always scatters, with
      its albedo, from the hit point. */
  function ScatterLambertian(albedo: Vec3, rIn: Ray, rec: HitRecord, s: Sample, kit: Kit): (res: Option<Scattered>)
    ensures res.Some? && res.value.attenuation == albedo
    ensures res.value.scattered.orig == rec.p && res.value.scattered.tm == rIn.tm
    ensures res.value.scattered.dir == rec.normal || res.value.scattered.dir == Add(rec.normal, s.unitVector)
  {
    var direction := Add(rec.normal, s.unitVector);
    var direction := if kit.nearZero(direction) then rec.normal else direction;
    Some(Scattered(albedo, Ray(rec.p, direction, rIn.tm)))
  }

  /** `Metal::scatter`: the fuzzed mirror direction, absorbed when it does
      not leave the surface: a scattered ray always points out of it. */
  function ScatterMetal(albedo: Vec3, fuzz: real, rIn: Ray, rec: HitRecord, s: Sample, kit: Kit): (res: Option<Scattered>)
    ensures res.Some? ==> res.value.attenuation == albedo && 0.0 < Dot(res.value.scattered.dir, rec.normal)
    ensures res.Some? ==> res.value.scattered.orig == rec.p && res.value.scattered.tm == rIn.tm
  {
    var reflected := kit.reflect(UnitVector(rIn.dir, kit.sqrt), rec.normal);
    var scattered := Ray(rec.p, Add(reflected, Scale(fuzz, s.unitVector)), rIn.tm);
    if Dot(scattered.dir, rec.normal) <= 0.0 then None
    else Some(Scattered(albedo, scattered))
  }

  /** `cos_theta`, the cosine between the reversed unit direction and the
      stored normal, capped at 1. */
  function CosTheta(rIn: Ray, rec: HitRecord, kit: Kit): real {
    MinReal(Dot(Neg(UnitVector(rIn.dir, kit.sqrt)), rec.normal), 1.0)
  }

  /** `cannot_refract`: Snell's law has no solution (`ratio * sin_theta > 1`). */
  predicate CannotRefract(ir: real, rIn: Ray, rec: HitRecord, kit: Kit) {
    var cosTheta := CosTheta(rIn, rec, kit);
    RefractionRatio(ir, rec.frontFace) * kit.sqrt(1.0 - cosTheta * cosTheta) > 1.0
  }

  /** Whether the dielectric reflects rather than refracts: always when it
      cannot refract, otherwise with Schlick's probability. */
  predicate DielectricReflects(ir: real, rIn: Ray, rec: HitRecord, s: Sample, kit: Kit) {
    CannotRefract(ir, rIn, rec, kit)
      || Reflectance(CosTheta(rIn, rec, kit), RefractionRatio(ir, rec.frontFace)) > s.uniform
  }

  /** `Dielectric::scatter`: never absorbs, never tints, starts at the hit
      point, and reflects whenever refraction is impossible. */
  function ScatterDielectric(ir: real, rIn: Ray, rec: HitRecord, s: Sample, kit: Kit): (res: Option<Scattered>)
    ensures res.Some? && res.value.attenuation == Vec3(1.0, 1.0, 1.0)
    ensures res.value.scattered.orig == rec.p && res.value.scattered.tm == rIn.tm
    ensures CannotRefract(ir, rIn, rec, kit) ==>
      res.value.scattered.dir == kit.reflect(UnitVector(rIn.dir, kit.sqrt), rec.normal)
  {
    var ratio := RefractionRatio(ir, rec.frontFace);
    var unitDirection := UnitVector(rIn.dir, kit.sqrt);
    var direction :=
      if DielectricReflects(ir, rIn, rec, s, kit) then kit.reflect(unitDirection, rec.normal)
      else kit.refract(unitDirection, rec.normal, ratio);
    Some(Scattered(Vec3(1.0, 1.0, 1.0), Ray(rec.p, direction, rIn.tm)))
  }

  /** `scatter`, dispatched on the material. A diffuse light absorbs; an
      isotropic phase function scatters in a random direction with the
      colour of its texture. Only a diffuse light, or a metal sending the ray
      into the surface, absorbs; every scattered ray starts at the hit point
      and keeps the incoming ray's time. */
  function Scatter(rIn: Ray, rec: HitRecord, s: Sample, kit: Kit): (res: Option<Scattered>)
    ensures res.None? ==> rec.mat.DiffuseLight? || rec.mat.Metal?
    ensures res.Some? ==> res.value.scattered.orig == rec.p && res.value.scattered.tm == rIn.tm
  {
    match rec.mat
    case Lambertian(albedo) => ScatterLambertian(albedo, rIn, rec, s, kit)
    case Metal(albedo, fuzz) => ScatterMetal(albedo, fuzz, rIn, rec, s, kit)
    case Dielectric(ir) => ScatterDielectric(ir, rIn, rec, s, kit)
    case DiffuseLight(_) => None
    case Isotropic(phase) =>
      Some(Scattered(TextureValue(phase, rec.u, rec.v, rec.p, kit), Ray(rec.p, s.unitVector, rIn.tm)))
  }

  /** Lambertian surfaces always scatter, with their albedo, and fall back
      to the surface normal when the sampled direction is nearly zero. */
  lemma LambertianAlwaysScatters(albedo: Vec3, rIn: Ray, rec: HitRecord, s: Sample, kit: Kit)
    requires rec.mat == Lambertian(albedo)
    ensures Scatter(rIn, rec, s, kit).Some?
    ensures Scatter(rIn, rec, s, kit).value.attenuation == albedo
    ensures kit.nearZero(Add(rec.normal, s.unitVector)) ==> Scatter(rIn, rec, s, kit).value.scattered.dir == rec.normal
    ensures !kit.nearZero(Add(rec.normal, s.unitVector)) ==> Scatter(rIn, rec, s, kit).value.scattered.dir == Add(rec.normal, s.unitVector)
  {
  }

  /** A metal absorbs exactly when the scattered direction does not point
      out of the surface; otherwise it attenuates by its albedo. */
  lemma MetalAbsorbsIffInward(albedo: Vec3, fuzz: real, rIn: Ray, rec: HitRecord, s: Sample, kit: Kit)
    requires rec.mat == Metal(albedo, fuzz)
    ensures var dir := Add(kit.reflect(UnitVector(rIn.dir, kit.sqrt), rec.normal), Scale(fuzz, s.unitVector));
      Scatter(rIn, rec, s, kit).None? <==> Dot(dir, rec.normal) <= 0.0
    ensures Scatter(rIn, rec, s, kit).Some? ==> Scatter(rIn, rec, s, kit).value.attenuation == albedo
  {
  }

  /** A dielectric never absorbs, never tints, and reflects whenever
      refraction is impossible (`ratio * sin_theta > 1`). */
  lemma DielectricAlwaysScatters(ir: real, rIn: Ray, rec: HitRecord, s: Sample, kit: Kit)
    requires rec.mat == Dielectric(ir)
    ensures Scatter(rIn, rec, s, kit).Some?
    ensures Scatter(rIn, rec, s, kit).value.attenuation == Vec3(1.0, 1.0, 1.0)
    ensures CannotRefract(ir, rIn, rec, kit) ==>
      Scatter(rIn, rec, s, kit).value.scattered.dir == kit.reflect(UnitVector(rIn.dir, kit.sqrt), rec.normal)
    ensures !DielectricReflects(ir, rIn, rec, s, kit) ==>
      Scatter(rIn, rec, s, kit).value.scattered.dir ==
        kit.refract(UnitVector(rIn.dir, kit.sqrt), rec.normal, RefractionRatio(ir, rec.frontFace))
  {
  }
}
