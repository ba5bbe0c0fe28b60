/** The hit record of src/hittable.rs, with the `u`, `v` texture
    coordinates that the primitives fill in. */
module HitRecords {
  import opened Vectors
  import opened Rays
  import opened Materials

  /** `HitRecord`: the point, the stored normal, the material, the ray
      parameter, the texture coordinates and which side was hit. */
  datatype HitRecord = HitRecord(
    p: Vec3, normal: Vec3, mat: Material, t: real, u: real, v: real, frontFace: bool)
  {
    /** `set_face_normal`: the record after the two field assignments. The
        ray hit the front face exactly when it travels against the outward
        normal; only `front_face` and `normal` change. */
    function SetFaceNormal(r: Ray, outward: Vec3): (rec: HitRecord)
      ensures rec.frontFace <==> Dot(r.dir, outward) < 0.0
      ensures rec.normal == (if rec.frontFace then outward else Neg(outward))
      ensures rec.p == p && rec.mat == mat && rec.t == t && rec.u == u && rec.v == v
    {
      var front := Dot(r.dir, outward) < 0.0;
      this.(frontFace := front, normal := if front then outward else Neg(outward))
    }
  }

  /** After `set_face_normal` the stored normal never points along the ray,
      and it has the outward normal's length. */
  lemma SetFaceNormalOpposesRay(rec: HitRecord, r: Ray, outward: Vec3)
    ensures Dot(r.dir, rec.SetFaceNormal(r, outward).normal) <= 0.0
    ensures LengthSquared(rec.SetFaceNormal(r, outward).normal) == LengthSquared(outward)
  {
    var n := rec.SetFaceNormal(r, outward).normal;
    if !(Dot(r.dir, outward) < 0.0) {
      assert Dot(r.dir, n) == -Dot(r.dir, outward);
    }
  }
}
