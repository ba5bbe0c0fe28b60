/** `HittableList` (src/hittable_list.rs): a growable vector of objects with
    the nearest-hit scan and the bounding-box loop. */
module HittableLists {
  import opened Vectors
  import opened Rays
  import opened Util
  import opened Aabbs
  import opened HitRecords
  import opened Hittables

  class HittableList {
    var objects: seq<Hittable>

    /** `HittableList::default()`. */
    constructor Empty()
      ensures objects == []
    {
      objects := [];
    }

    /** `HittableList::new(object)`: a one-element list. */
    constructor (hittable: Hittable)
      ensures objects == [hittable]
    {
      objects := [hittable];
    }

    /** `clear`. */
    method Clear()
      modifies this
      ensures objects == []
    {
      objects := [];
    }

    /** `add`: appends at the end, keeping the earlier objects. */
    method Add(hittable: Hittable)
      modifies this
      ensures objects == old(objects) + [hittable]
      ensures |objects| == |old(objects)| + 1 && objects[..|old(objects)|] == old(objects)
    {
      objects := objects + [hittable];
    }

    /** The list as a scene object. */
    function AsHittable(): Hittable
      reads this
    {
      ListObj(objects)
    }

    /** `hit`: the loop over the objects, each queried on
        `[t_min, closes_so_far]`, where `closes_so_far` is the `t` of the
        last hit found. */
    method Hit(r: Ray, tMin: ExtReal, tMax: ExtReal, sqrt: real -> real, lnU: real) returns (tempRec: Option<HitRecord>)
      ensures tempRec == ListHit(objects, r, tMin, tMax, sqrt, lnU)
      ensures |objects| == 0 ==> tempRec.None?
    {
      tempRec := None;
      var closesSoFar := tMax;
      for i := 0 to |objects|
        invariant tempRec == ListHit(objects[..i], r, tMin, tMax, sqrt, lnU)
        invariant closesSoFar == if tempRec.Some? then Finite(tempRec.value.t) else tMax
      {
        assert objects[..i + 1][..i] == objects[..i];
        match Hittables.Hit(objects[i], r, tMin, closesSoFar, sqrt, lnU) {
          case Some(rec) =>
            closesSoFar := Finite(rec.t);
            tempRec := Some(rec);
          case None =>
        }
      }
      assert objects[..|objects|] == objects;
    }

    /** `bounding_box`: the loop returns `None` while visiting its first
        object, so no list ever has a box. */
    method BoundingBox(time0: real, time1: real) returns (outputBox: Option<Aabb>)
      ensures outputBox.None?
      ensures outputBox == Hittables.BoundingBox(AsHittable(), time0, time1)
    {
      if |objects| == 0 {
        return None;
      }
      var box := Aabb(Zero, Zero);
      var firstBox := true;
      for i := 0 to |objects|
        invariant i == 0
      {
        match Hittables.BoundingBox(objects[i], time0, time1) {
          case Some(tempBox) =>
            box := if firstBox then tempBox else SurroundingBox(box, tempBox);
            firstBox := false;
          case None =>
        }
        return None;
      }
      assert false;
      return Some(box);
    }
  }
}
