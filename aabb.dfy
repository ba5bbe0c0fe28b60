/** Axis-aligned bounding boxes: the slab test and the union of two boxes
    (src/aabb.rs). */
module Aabbs {
  import opened Vectors
  import opened Rays
  import opened Util

  /** `AABB::new(minimum, maximum)`; `min()` and `max()` return the two
      corners exactly as given (the fields). */
  datatype Aabb = Aabb(minimum: Vec3, maximum: Vec3)

  /** The ray parameter `(bound - origin) * inv_d` at which the ray
      crosses the plane `bound` of one axis. */
  function Along(bound: real, o: real, invD: real): real {
    (bound - o) * invD
  }

  /** The entry and exit parameters of the ray through the slab of axis `a`,
      after the swap that puts them in order for a negative direction.

      For a zero direction component `1.0 / d` is an infinity: the products
      are then infinite or NaN, and a NaN compares false, so it leaves the
      running bound as it was. The result is that the slab rules the ray out
      when the origin lies outside it and constrains nothing otherwise; the
      two bounds below reproduce that (for +0.0; -0.0 decides the same). */
  function SlabTimes(b: Aabb, r: Ray, a: nat): (ts: (ExtReal, ExtReal))
    requires a < 3
    ensures r.dir.Index(a) != 0.0 ==> ts.0.Finite? && ts.1.Finite?
    ensures r.dir.Index(a) == 0.0 ==>
      if b.minimum.Index(a) <= r.orig.Index(a) <= b.maximum.Index(a) then ts == (NegInf, PosInf)
      else !Less(ts.0, ts.1)
  {
    var d := r.dir.Index(a);
    var o := r.orig.Index(a);
    if d != 0.0 then
      var invD := 1.0 / d;
      var t0 := Along(b.minimum.Index(a), o, invD);
      var t1 := Along(b.maximum.Index(a), o, invD);
      if invD < 0.0 then (Finite(t1), Finite(t0)) else (Finite(t0), Finite(t1))
    else
      (if o < b.minimum.Index(a) then PosInf else NegInf,
       if b.maximum.Index(a) < o then NegInf else PosInf)
  }

  /** The running `(t_min, t_max)` after narrowing by the first `n` axes:
      never looser than the interval it started from. */
  function Narrow(b: Aabb, r: Ray, lo: ExtReal, hi: ExtReal, n: nat): (bounds: (ExtReal, ExtReal))
    requires n <= 3
    ensures LessEq(lo, bounds.0) && LessEq(bounds.1, hi)
  {
    if n == 0 then (lo, hi)
    else
      var (tMin, tMax) := Narrow(b, r, lo, hi, n - 1);
      var (t0, t1) := SlabTimes(b, r, n - 1);
      LessTransitive(lo, tMin, t0);
      LessTransitive(t1, tMax, hi);
      (if Less(tMin, t0) then t0 else tMin, if Less(t1, tMax) then t1 else tMax)
  }

  /** What `hit` decides: the interval narrowed by all three slabs is
      non-empty. An empty input interval (`t_max <= t_min`) therefore always
      misses. */
  function Overlaps(b: Aabb, r: Ray, lo: ExtReal, hi: ExtReal): (hit: bool)
    ensures hit ==> Less(lo, hi)
  {
    var (l, h) := Narrow(b, r, lo, hi, 3);
    LessTransitive(lo, l, h);
    LessTransitive(lo, h, hi);
    Less(l, h)
  }

  /** One pass of the loop body of `hit`: the ordered entry and exit
      parameters for axis `a`. */
  method Slab(b: Aabb, r: Ray, a: nat) returns (t0: ExtReal, t1: ExtReal)
    requires a < 3
    ensures t0 == SlabTimes(b, r, a).0 && t1 == SlabTimes(b, r, a).1
  {
    var d := r.dir.Index(a);
    if d != 0.0 {
      var invD := 1.0 / d;
      var o := r.orig.Index(a);
      var x0 := Along(b.minimum.Index(a), o, invD);
      var x1 := Along(b.maximum.Index(a), o, invD);
      t0, t1 := Finite(x0), Finite(x1);
      if invD < 0.0 {
        t0, t1 := t1, t0;
      }
    } else {
      t0 := if r.orig.Index(a) < b.minimum.Index(a) then PosInf else NegInf;
      t1 := if b.maximum.Index(a) < r.orig.Index(a) then NegInf else PosInf;
    }
  }

  /** The slab test as the source runs it: a loop over the three axes that
      narrows `t_min` and `t_max` and returns false as soon as they cross. */
  method Hit(b: Aabb, r: Ray, tMin0: ExtReal, tMax0: ExtReal) returns (hit: bool)
    ensures hit == Overlaps(b, r, tMin0, tMax0)
  {
    var tMin, tMax := tMin0, tMax0;
    for a := 0 to 3
      invariant (tMin, tMax) == Narrow(b, r, tMin0, tMax0, a)
      invariant 0 < a ==> Less(tMin, tMax)
    {
      var t0, t1 := Slab(b, r, a);
      tMin := if Less(tMin, t0) then t0 else tMin;
      tMax := if Less(t1, tMax) then t1 else tMax;
      if LessEq(tMax, tMin) {
        NarrowMonotone(b, r, tMin0, tMax0, a + 1, 3);
        LessTransitive(Narrow(b, r, tMin0, tMax0, 3).1, tMax, tMin);
        LessTransitive(Narrow(b, r, tMin0, tMax0, 3).1, tMin, Narrow(b, r, tMin0, tMax0, 3).0);
        LessTotal(Narrow(b, r, tMin0, tMax0, 3).0, Narrow(b, r, tMin0, tMax0, 3).1);
        return false;
      }
      LessTotal(tMin, tMax);
    }
    return true;
  }

  /** Across the loop the running `t_min` never decreases and the running
      `t_max` never increases. */
  lemma {:induction false} NarrowMonotone(b: Aabb, r: Ray, lo: ExtReal, hi: ExtReal, n: nat, m: nat)
    requires n <= m <= 3
    ensures LessEq(Narrow(b, r, lo, hi, n).0, Narrow(b, r, lo, hi, m).0)
    ensures LessEq(Narrow(b, r, lo, hi, m).1, Narrow(b, r, lo, hi, n).1)
  {
    if n < m {
      NarrowMonotone(b, r, lo, hi, n, m - 1);
      var (l, h) := Narrow(b, r, lo, hi, m - 1);
      var (t0, t1) := SlabTimes(b, r, m - 1);
      LessTotal(l, t0);
      LessTotal(t1, h);
      LessTransitive(Narrow(b, r, lo, hi, n).0, l, t0);
      LessTransitive(t1, h, Narrow(b, r, lo, hi, n).1);
    }
  }

  /** The lower bounds of the test: the input `t_min` and the three entry times. */
  function Lowers(b: Aabb, r: Ray, lo: ExtReal): seq<ExtReal> {
    [lo, SlabTimes(b, r, 0).0, SlabTimes(b, r, 1).0, SlabTimes(b, r, 2).0]
  }

  /** The upper bounds of the test: the input `t_max` and the three exit times. */
  function Uppers(b: Aabb, r: Ray, hi: ExtReal): seq<ExtReal> {
    [hi, SlabTimes(b, r, 0).1, SlabTimes(b, r, 1).1, SlabTimes(b, r, 2).1]
  }

  /** The narrowed bounds are the largest of the first lower bounds and the
      smallest of the first upper bounds. */
  lemma {:induction false} NarrowIsExtreme(b: Aabb, r: Ray, lo: ExtReal, hi: ExtReal, n: nat)
    requires n <= 3
    ensures forall i :: 0 <= i <= n ==> LessEq(Lowers(b, r, lo)[i], Narrow(b, r, lo, hi, n).0)
    ensures forall j :: 0 <= j <= n ==> LessEq(Narrow(b, r, lo, hi, n).1, Uppers(b, r, hi)[j])
    ensures exists i :: 0 <= i <= n && Narrow(b, r, lo, hi, n).0 == Lowers(b, r, lo)[i]
    ensures exists j :: 0 <= j <= n && Narrow(b, r, lo, hi, n).1 == Uppers(b, r, hi)[j]
  {
    var L, U := Lowers(b, r, lo), Uppers(b, r, hi);
    if n == 0 {
      assert Narrow(b, r, lo, hi, 0).0 == L[0];
      assert Narrow(b, r, lo, hi, 0).1 == U[0];
    } else {
      NarrowIsExtreme(b, r, lo, hi, n - 1);
      var (l, h) := Narrow(b, r, lo, hi, n - 1);
      var (t0, t1) := SlabTimes(b, r, n - 1);
      assert L[n] == t0 && U[n] == t1;
      LessTotal(l, t0);
      LessTotal(t1, h);
      forall i | 0 <= i <= n
        ensures LessEq(L[i], Narrow(b, r, lo, hi, n).0)
      {
        if i < n {
          LessTransitive(L[i], l, t0);
        }
      }
      forall j | 0 <= j <= n
        ensures LessEq(Narrow(b, r, lo, hi, n).1, U[j])
      {
        if j < n {
          LessTransitive(t1, h, U[j]);
        }
      }
      var i :| 0 <= i <= n - 1 && l == L[i];
      var j :| 0 <= j <= n - 1 && h == U[j];
      if Less(l, t0) { assert Narrow(b, r, lo, hi, n).0 == L[n]; } else { assert Narrow(b, r, lo, hi, n).0 == L[i]; }
      if Less(t1, h) { assert Narrow(b, r, lo, hi, n).1 == U[n]; } else { assert Narrow(b, r, lo, hi, n).1 == U[j]; }
    }
  }

  /** `hit` is true exactly when the largest of the input `t_min` and the
      three entry times is below the smallest of the input `t_max` and the
      three exit times, i.e. when every lower bound is below every upper
      bound. The early return does not change this result (see `Hit`). */
  lemma OverlapsIffBoundsSeparate(b: Aabb, r: Ray, lo: ExtReal, hi: ExtReal)
    ensures Overlaps(b, r, lo, hi) <==>
      forall i, j :: 0 <= i < 4 && 0 <= j < 4 ==> Less(Lowers(b, r, lo)[i], Uppers(b, r, hi)[j])
  {
    NarrowIsExtreme(b, r, lo, hi, 3);
    var (l, h) := Narrow(b, r, lo, hi, 3);
    var L, U := Lowers(b, r, lo), Uppers(b, r, hi);
    if Overlaps(b, r, lo, hi) {
      forall i, j | 0 <= i < 4 && 0 <= j < 4
        ensures Less(L[i], U[j])
      {
        LessTransitive(L[i], l, h);
        LessTransitive(L[i], h, U[j]);
      }
    } else {
      var i :| 0 <= i <= 3 && l == L[i];
      var j :| 0 <= j <= 3 && h == U[j];
      LessTotal(l, h);
      assert !Less(L[i], U[j]);
    }
  }

  /** For a nonzero direction and a well-formed slab the swap leaves the
      entry time no later than the exit time. */
  lemma SlabOrdered(b: Aabb, r: Ray, a: nat)
    requires a < 3
    requires r.dir.Index(a) != 0.0
    requires b.minimum.Index(a) <= b.maximum.Index(a)
    ensures SlabTimes(b, r, a).0.Finite? && SlabTimes(b, r, a).1.Finite?
    ensures SlabTimes(b, r, a).0.value <= SlabTimes(b, r, a).1.value
  {
    var invD := 1.0 / r.dir.Index(a);
    var lo := b.minimum.Index(a) - r.orig.Index(a);
    var hi := b.maximum.Index(a) - r.orig.Index(a);
    ScaleMonotone(lo, hi, invD);
  }

  lemma ScaleMonotone(lo: real, hi: real, k: real)
    requires lo <= hi
    ensures 0.0 <= k ==> lo * k <= hi * k
    ensures k < 0.0 ==> hi * k <= lo * k
  {
    assert hi * k - lo * k == (hi - lo) * k;
  }

  function MinR(a: real, b: real): real {
    if a < b then a else b
  }

  function MaxR(a: real, b: real): real {
    if a > b then a else b
  }

  /** `outer` encloses `inner` componentwise. */
  predicate Contains(outer: Aabb, inner: Aabb) {
    && outer.minimum.x <= inner.minimum.x && outer.minimum.y <= inner.minimum.y && outer.minimum.z <= inner.minimum.z
    && inner.maximum.x <= outer.maximum.x && inner.maximum.y <= outer.maximum.y && inner.maximum.z <= outer.maximum.z
  }

  /** `surrounding_box`: the componentwise minimum of the minimum corners
      and maximum of the maximum corners. It contains both boxes and is the
      smallest box that does. */
  function SurroundingBox(box0: Aabb, box1: Aabb): (r: Aabb)
    ensures Contains(r, box0) && Contains(r, box1)
    ensures forall c :: Contains(c, box0) && Contains(c, box1) ==> Contains(c, r)
  {
    var small := Vec3(MinR(box0.minimum.x, box1.minimum.x),
                      MinR(box0.minimum.y, box1.minimum.y),
                      MinR(box0.minimum.z, box1.minimum.z));
    var big := Vec3(MaxR(box0.maximum.x, box1.maximum.x),
                    MaxR(box0.maximum.y, box1.maximum.y),
                    MaxR(box0.maximum.z, box1.maximum.z));
    Aabb(small, big)
  }

  lemma SurroundingBoxCommutes(box0: Aabb, box1: Aabb)
    ensures SurroundingBox(box0, box1) == SurroundingBox(box1, box0)
  {
  }

  lemma SurroundingBoxIdempotent(b: Aabb)
    ensures SurroundingBox(b, b) == b
  {
  }
}
