# A verified model of a Monte Carlo ray tracer's geometric core

This project models, in Dafny, the core of a small Rust path tracer that
follows the "Ray Tracing in One Weekend" books. It covers:

- the vector and ray algebra (`Vec3`, `Ray`, `clamp`);
- the axis-aligned bounding box: the slab test and the union box;
- hit records and face orientation;
- the nearest-hit scan over a `HittableList`;
- the bounding volume hierarchy (`BVHNode`): its build and its traversal;
- the primitives: sphere, moving sphere, axis-aligned rectangles, box, and
  constant-density medium;
- the material branch logic and Schlick's reflectance;
- the Perlin permutation tables and lattice hashing;
- the recursive integrator `ray_color` and the per-pixel sample sum.

`real` stands in for `f64`. An interval bound that can be infinite is an
`ExtReal` (`NegInf`, `Finite(x)`, `PosInf`). Every random draw is a
parameter:

- the BVH split axis of each node;
- the shuffle targets of Fisher–Yates;
- the `random_unit_vector`, `random_f64` and `random_f64().ln()` of each
  bounce.

The numeric helpers the source calls but does not define (`sqrt`,
`reflect`, `refract`, `near_zero`, procedural textures) are also
parameters. They are bundled in `Numerics.Kit`, or passed as `sqrt`
alone. Where a proof needs facts about `sqrt`, it assumes only
`Util.IsSqrt`: the root is non-negative and squares back to its argument.

Modules follow the source files:

| file | module | source |
|---|---|---|
| vec3.dfy | `Vectors` | src/vec3.rs |
| util.dfy | `Util` | src/util.rs |
| ray.dfy | `Rays` | src/ray.rs |
| aabb.dfy | `Aabbs` | src/aabb.rs |
| numerics.dfy | `Numerics` | the helpers and random draws above |
| material.dfy | `Materials` | src/material.rs, src/texture.rs |
| hittable.dfy | `HitRecords` | src/hittable.rs |
| scatter.dfy | `Scattering` | src/material.rs |
| sphere.dfy | `Spheres` | src/sphere.rs |
| movingsphere.dfy | `MovingSpheres` | src/movingsphere.rs |
| aarect.dfy | `Rects` | src/aarect.rs |
| hittables.dfy | `Hittables` | src/hittable.rs (dispatch), src/hittable_list.rs, src/bvh.rs, src/constantmedium.rs |
| hittable_list.dfy | `HittableLists` | src/hittable_list.rs |
| box.dfy | `Boxes` | src/_box.rs |
| constantmedium.dfy | `ConstantMedia` | src/constantmedium.rs |
| bvh.dfy | `Bvhs` | src/bvh.rs |
| perlin.dfy | `Perlins` | src/perlin.rs |
| render.dfy | `Render` | src/main.rs |

How the source's forms are kept:

- Code that mutates is imperative Dafny, each method proved against a
  function:
  - the in-place `Vec3` operators (`Vectors.MutableVec3`);
  - the `HittableList` methods;
  - the slab loop of `AABB::hit`;
  - `Box::new`'s six `add` calls;
  - the step-by-step clipping of `ConstantMedium::hit`;
  - the Fisher–Yates shuffle on an array;
  - the `noise` and `turb` loops of `Perlin`;
  - the `+=` loop of a pixel's samples.
- Everything else is a function over datatypes.
- `dyn Hittable` is the datatype `Hittables.Hittable`. It has one
  constructor per kind of object, so `hit` and `bounding_box` are defined
  once, by cases.
- `ray_color` takes the scene as a function value (`Render.Scene`).
  `Render.Dispatch` turns a `Hittable` into one.

Two behaviours of the source differ from the textbook. They are modelled
as written, and lemmas exhibit what follows from them:

- `BVHNode::new` sorts the whole cloned vector, not just `[start, end)`
  (src/bvh.rs:32, 63). A hierarchy can then hold one object twice and miss
  another: see `Bvhs.BuildCanDropObject`.
- `ConstantMedium::hit` reports a hit only when the sampled distance is at
  least the distance inside the boundary (src/constantmedium.rs:68). The
  reported `t` then lies at or beyond the clipped exit
  (`ConstantMedia.SampleBeyondExit`), and it can exceed `t_max`
  (`ConstantMedia.HitCanExceedTMax`).

## Model

| member | source | states |
|---|---|---|
| Vectors.Quot | src/vec3.rs:136-138 | A nonzero divisor times the quotient gives back the dividend. A zero divisor, which is an infinity in the source, reads as 0. |
| Vectors.LengthSquared | src/vec3.rs:31-33 | `length_squared` is never negative. |
| Vectors.NegIsInverse | src/vec3.rs:36-41 | `v + (-v)` is the zero vector, and negating twice gives `v` back. |
| Vectors.AddSubCancel | src/vec3.rs:87-102 | Subtraction undoes addition: `(a + b) - b == a`, `(a + b) - a == b` and `(a - b) + b == a`. |
| Vectors.SubZeroIffEqual | src/vec3.rs:96-102 | `u - v` is the zero vector iff `u == v`. |
| Vectors.MulIdentities | src/vec3.rs:105-111 | The componentwise product has `(1, 1, 1)` as identity on both sides, is zero when either factor is, and commutes. |
| Vectors.ScaleIdentities | src/vec3.rs:114-129 | Scaling by 1 changes nothing; scaling by 0, or scaling the zero vector, gives zero; scaling twice scales by the product; `v * s == s * v`, so the scalar may stand on either side. |
| Vectors.DivIsScaleByInverse | src/vec3.rs:132-138 | For `s != 0`, `v / s` is `(1/s) * v`, and scaling it back by `s` recovers `v`. A zero divisor gives the zero vector. |
| Vectors.DotSelfIsLengthSquared | src/vec3.rs:142-144 | `dot(v, v)` equals `length_squared(v)` and is non-negative; `dot(v, 0) == 0`; `dot(u, v) == dot(v, u)`. |
| Vectors.CrossOrthogonal | src/vec3.rs:147-151 | `cross(u, v)` is orthogonal to `u` and to `v`, `cross(u, v) == -cross(v, u)`, and `cross(v, v)` is zero. |
| Vectors.UnitVectorRescales | src/vec3.rs:154-156 | For a vector of nonzero length, `length(v) * unit_vector(v) == v`: the unit vector points along `v`. The zero vector maps to zero. |
| Vectors.IndexReadsComponent | src/vec3.rs:44-49 | Indices 0, 1, 2 read `x`, `y`, `z`, and the three reads rebuild the vector. Other indices are out of bounds (a `requires`). |
| Vectors.MutableVec3.constructor | src/vec3.rs:13-15 | A new vector holds exactly the given components. |
| Vectors.MutableVec3.AddAssign | src/vec3.rs:58-64 | After `+=`, the vector equals `Add(old value, rhs)`. |
| Vectors.MutableVec3.MulAssign | src/vec3.rs:66-72 | After `*=`, the vector equals `old value * rhs`. |
| Vectors.MutableVec3.DivAssign | src/vec3.rs:74-78 | After `/=`, the vector equals `old value / rhs`. For `rhs != 0` that is scaling by `1/rhs`. |
| Vectors.MutableVec3.IndexMut | src/vec3.rs:52-55 | Writing through `index_mut(i)` sets component `i` and leaves the other two unchanged. |
| Util.Clamp | src/util.rs:4-6 | The result lies in `[min, max]` when `min <= max`. It is `x` when `x` is already there, `min` below the range, and `max` above it. When `min > max` it is `min`, because `.max(min)` comes last. |
| Util.ClampIdempotent | src/util.rs:4-6 | Clamping a clamped value changes nothing. |
| Rays.AtZero | src/ray.rs:27-29 | `at(0)` is the origin. |
| Rays.AtAffine | src/ray.rs:27-29 | `at(t) - at(s) == (t - s) * dir`. |
| Rays.AtRecoversRay | src/ray.rs:11-29 | The origin, direction and time given to `Ray::new` are recovered from `at(0)`, `at(1) - at(0)` and the stored time. |
| Aabbs.SlabTimes | src/aabb.rs:27-32 | A nonzero direction component gives finite entry and exit times. A zero one, as IEEE `1/0` does, gives `(-inf, inf)` when the origin lies within the slab and an entry time not below the exit time otherwise. |
| Aabbs.Narrow | src/aabb.rs:33-34 | Narrowing over any number of axes never loosens the interval: the lower bound only rises and the upper bound only falls. |
| Aabbs.Overlaps | src/aabb.rs:25-41 | A box is hit only when the input interval is non-empty, `t_min < t_max`: an empty one always misses. |
| Aabbs.Slab | src/aabb.rs:27-32 | One loop pass yields the slab's entry and exit times for the axis, swapped into order for a negative direction. |
| Aabbs.Hit | src/aabb.rs:25-41 | The loop with its early exit returns exactly `Overlaps`: the narrowed lower bound is below the narrowed upper bound after all three axes. |
| Aabbs.NarrowMonotone | src/aabb.rs:33-34 | Across the axes, the running `t_min` never decreases and the running `t_max` never increases. |
| Aabbs.NarrowIsExtreme | src/aabb.rs:33-34 | After `n` axes, `t_min` is the largest of the input `t_min` and the first `n` entry times. `t_max` is the smallest of the input `t_max` and the first `n` exit times. |
| Aabbs.OverlapsIffBoundsSeparate | src/aabb.rs:25-41 | `hit` is true if and only if every lower bound (input `t_min`, three entry times) is below every upper bound (input `t_max`, three exit times). |
| Aabbs.SlabOrdered | src/aabb.rs:27-32 | For a nonzero direction component and `min <= max` on that axis, the swapped entry time is at most the exit time. |
| Aabbs.SurroundingBox | src/aabb.rs:44-58 | The union box contains both boxes. It is contained in every box that contains both. |
| Aabbs.SurroundingBoxCommutes | src/aabb.rs:44-58 | `surrounding_box(b0, b1) == surrounding_box(b1, b0)`. |
| Aabbs.SurroundingBoxIdempotent | src/aabb.rs:44-58 | `surrounding_box(b, b) == b`. |
| HitRecords.HitRecord.SetFaceNormal | src/hittable.rs:17-24 | `front_face` holds iff the ray runs against the outward normal. The normal is the outward normal on the front face and its negation otherwise. `p`, `t`, the material and `u`, `v` are unchanged. |
| HitRecords.SetFaceNormalOpposesRay | src/hittable.rs:17-24 | The stored normal never points along the ray (`dot <= 0`), and it keeps the outward normal's length. |
| HittableLists.HittableList.Empty | src/hittable_list.rs:6-9 | The default list is empty. |
| HittableLists.HittableList.constructor | src/hittable_list.rs:12-16 | `new(o)` holds exactly `[o]`. |
| HittableLists.HittableList.Clear | src/hittable_list.rs:18-20 | `clear` empties the list. |
| HittableLists.HittableList.Add | src/hittable_list.rs:22-24 | `add` appends at the end, grows the list by one and leaves earlier elements as they were. |
| HittableLists.HittableList.Hit | src/hittable_list.rs:28-40 | The loop returns the nearest-hit scan `ListHit`. An empty list gives `None`. |
| HittableLists.HittableList.BoundingBox | src/hittable_list.rs:42-59 | Always `None`: an empty list returns early, and any other list returns `None` inside the first loop pass. The result agrees with `Hittables.BoundingBox` of the list. |
| Hittables.Hit | src/bvh.rs:83-93 | A ray without direction meets nothing, whatever the object. The BVH node's box test and left-then-right query are stated by `Hittables.BvhHitIsPairScan`. |
| Hittables.ListHit | src/hittable_list.rs:28-40 | An empty list, or a ray without direction, gives `None`. |
| Hittables.MediumHit | src/constantmedium.rs:38-83 | A ray without direction misses. A hit carries the phase function, the normal `(1, 0, 0)` and `front_face` true. |
| Hittables.MediumSample | src/constantmedium.rs:49-82 | A hit needs the clipped interval `max(t_min, t1) < min(t_max, t2)` to be non-empty, and a direction of nonzero length. Its record has normal `(1, 0, 0)`, `front_face`, `u == v == 0` and the phase function. |
| Hittables.BoundingBox | src/hittable.rs:30 | An object has no bounding box exactly when it is a list, or media wrapped around a list. The box's value (src/_box.rs:75-77) and the BVH node's cached box (src/bvh.rs:95) are given by the function's cases, not by this contract. |
| Hittables.MediumBoxIsBoundarys | src/constantmedium.rs:85-87 | A medium's bounding box is its boundary's, at any times. |
| Hittables.HitWithinInterval | src/hittable.rs:28 | Every object without a constant medium in it reports only hits whose `t` lies in `[t_min, t_max]`. |
| Hittables.ListHitWithinInterval | src/hittable_list.rs:28-40 | If every member honours its interval, the list's hit lies in `[t_min, t_max]`. |
| Hittables.ListHitFromMember | src/hittable_list.rs:32-37 | The list's hit is the hit some member returned when queried on `[t_min, bound]`. |
| Hittables.ListHitNeverRecedes | src/hittable_list.rs:29-37 | When no member holds a constant medium, scanning more objects never moves the nearest hit farther away: `closest_so_far` only shrinks. |
| Hittables.BvhHitIsPairScan | src/bvh.rs:83-93 | A node whose box misses the ray gives `None`. Otherwise the node answers as the nearest-hit scan over `[left, right]`: right is queried up to left's hit and wins if it hits. |
| Hittables.StationaryBoxIgnoresTimes | src/bvh.rs:95 | For an object with no moving sphere at its top or inside the media around it, the bounding box is the same whatever times are asked. |
| Bvhs.BoxCompare | src/bvh.rs:99-110 | The comparator answers `Less`, `Equal` or `Greater` exactly as the two keys compare. For two objects with boxes at times `(0, 0)`, `Less` and `Greater` hold exactly when one box's minimum corner on the comparator's axis (`x` for 0, `y` for 1, `z` otherwise) is below the other's. |
| Bvhs.Insert | src/bvh.rs:63 | One insertion step of the sort grows the sequence by one. |
| Bvhs.InsertPermutes | src/bvh.rs:63 | Inserting one element adds it and loses nothing. |
| Bvhs.InsertSorted | src/bvh.rs:63 | Inserting into a sequence sorted by key keeps it sorted. |
| Bvhs.SortBy | src/bvh.rs:63 | `sort_by` keeps the vector's length. |
| Bvhs.SortByPermutes | src/bvh.rs:63 | `sort_by` returns a permutation of the whole vector. |
| Bvhs.SortByOrders | src/bvh.rs:63 | `sort_by` orders the whole vector by the comparator's key. |
| Bvhs.SortBySorted | src/bvh.rs:63 | Sorting an already sorted vector leaves it unchanged. |
| Bvhs.PermutationKeepsBoxes | src/bvh.rs:63-75 | Reordering the vector keeps every object's box, so the `expect`s after the sort cannot fail when they could not before it. |
| Bvhs.Mid | src/bvh.rs:65 | For a span of three or more, `start < mid < end`, so both recursive spans are non-empty and shorter. |
| Bvhs.Build | src/bvh.rs:25-79 | The node holds the children `Children` chooses, both children have boxes, and the cached box contains both. |
| Bvhs.Children | src/bvh.rs:46-68 | Span 1 uses one object as both children. Span 2 puts `objects[start]` on the left exactly when the comparator says `Less`. Every child is an object of the source vector or a node built from it. |
| Bvhs.Split | src/bvh.rs:62-67 | Past the sort, both halves are nodes drawn from the source vector. |
| Bvhs.FromList | src/bvh.rs:21-23 | The hierarchy over a non-empty list is a node whose subtrees are drawn from the list. |
| Bvhs.BuildCanDropObject | src/bvh.rs:32-67 | Five objects, split along `y` at `[2, 5)` and along `x` elsewhere, give a hierarchy that never reaches the third object and reaches the first one twice. |
| Spheres.NearestRoot | src/sphere.rs:37-43 | The smaller root is taken when it lies in `[t_min, t_max]`. Otherwise the larger root is taken when it does, and otherwise there is no hit. A returned root always lies in the interval. |
| Spheres.NearestRootIsSmallest | src/sphere.rs:37-43 | There is a result iff some root is in range, and the result is no greater than any in-range root. |
| Spheres.InsideHasRealRoots | src/sphere.rs:25-30 | A ray whose origin lies inside or on the ball has a non-negative discriminant. |
| Spheres.HitBallTakesNearestRoot | src/sphere.rs:25-43 | For a non-negative discriminant and a nonzero direction, `hit` returns a record exactly when `NearestRoot` does, at that root. |
| Spheres.HitBallFacts | src/sphere.rs:24-56 | A negative discriminant gives `None`. A hit lies in the interval, at `p == r.at(t)`, with the sphere's material and a normal `±(p - center)/radius` that opposes the ray. The smaller root wins when in range. Both roots out of range give `None`. |
| Spheres.HitBallSolvesQuadratic | src/sphere.rs:25-37 | Given a true square root, the returned `t` solves `a t² + 2 half_b t + c == 0`. |
| Spheres.HitBallOnSurface | src/sphere.rs:25-51 | Given a true square root, the hit point lies on the sphere: `|p - center|² == radius²`. |
| Spheres.ZeroDirectionMisses | src/sphere.rs:24-43 | A ray without direction gets no hit. |
| Spheres.Hit | src/sphere.rs:24-56 | Given a true square root, a hit point lies on the sphere's surface. A ray without direction misses. |
| Spheres.BoundingBox | src/hittable.rs:30 | For a non-negative radius, the box contains the centre. |
| Spheres.BoundingBoxBoundsBall | src/hittable.rs:30 | For a non-negative radius, every point of the ball, at distance at most the radius from the centre, lies in the box. |
| MovingSpheres.MovingSphere.Center | src/movingsphere.rs:36-39 | `center(time0) == center0`. When `time0 != time1`, `center(time1) == center1`. |
| MovingSpheres.BoxAt | src/movingsphere.rs:80-87 | For a non-negative radius, the per-time box contains the centre at that time. |
| MovingSpheres.BoxAtBoundsBall | src/movingsphere.rs:80-87 | For a non-negative radius, every point of the ball around the centre at that time lies in the per-time box. |
| MovingSpheres.BoxAtOrdered | src/movingsphere.rs:80-87 | For a non-negative radius, each per-time box has `min <= max` on every axis. |
| MovingSpheres.BoundingBox | src/movingsphere.rs:79-90 | The result is always `Some`, and it contains the boxes at `time0` and at `time1`. |
| MovingSpheres.Hit | src/movingsphere.rs:43-77 | Given a true square root, a hit point lies on the sphere as it stands at the ray's time: `|p - center(r.time())|² == radius²`. |
| MovingSpheres.HitFacts | src/movingsphere.rs:43-77 | `hit` is the sphere test at `center(r.time())`. A negative discriminant gives `None`. A hit lies in the interval, at `r.at(t)`, with `u == v == 0` and the sphere's material. |
| Rects.OutwardNormal | src/aarect.rs:54 | The outward normal is the plane's `+z` in the rectangle's own frame: `(0, 0, 1)` for `XYRect`. |
| Rects.BoundingBox | src/aarect.rs:60-65 | The box spans the rectangle's extents and is padded on both sides of `k`, so it has positive thickness across the plane. |
| Rects.ProjectFacts | src/aarect.rs:34-43 | The change to the rectangle's own frame, which turns `XZRect` and `YZRect` into `XYRect`, is a bijection. It commutes with `o + t d` and keeps dot products. |
| Rects.Hit | src/aarect.rs:34-58 | A direction parallel to the plane misses. A hit lies in the interval, at `r.at(t)`, with the rectangle's material. |
| Rects.HitAt | src/aarect.rs:36-57 | Past the crossing parameter `t`, there is a record iff `t` lies in `[t_min, t_max]` and the crossing point lies within the extents. The record has that `t`, `p == r.at(t)` and the rectangle's material. |
| Rects.HitFacts | src/aarect.rs:34-58 | A hit lies in the interval, at `r.at(t)`, with the rectangle's material and a normal `±(0, 0, 1)` that opposes the ray. |
| Rects.HitInPlane | src/aarect.rs:35-46 | The hit point lies in the rectangle's plane (`z == k` for `XYRect`). |
| Rects.HitWithinExtents | src/aarect.rs:39-43 | The hit point lies within `[x0, x1] × [y0, y1]`. |
| Rects.HitIsHitAt | src/aarect.rs:35 | A direction parallel to the plane misses. Otherwise the crossing parameter is `t = (k - o.z) / d.z`. |
| Rects.CrossingOnPlane | src/aarect.rs:35 | For `d.z != 0`, `r.at(t)` at the crossing parameter lies on the plane. |
| Rects.HitTextureCoordinates | src/aarect.rs:50-51 | When `x0 < x1` (resp. `y0 < y1`), `u` (resp. `v`) lies in `[0, 1]`. |
| Rects.MissOutsideInterval | src/aarect.rs:35-38 | A crossing parameter outside `[t_min, t_max]` gives `None`. |
| Rects.MissOutsideExtents | src/aarect.rs:39-43 | A crossing point outside the extents gives `None`. |
| Boxes.Sides | src/_box.rs:24-74 | There are six sides, all rectangles of the box's material. |
| Boxes.New | src/_box.rs:20-81 | `Box::new` keeps `p0` and `p1` exactly as given, without reordering, and holds the six sides in the order they are added. |
| Boxes.HitOnSurface | src/_box.rs:84-87 | For `p0 <= p1`, any hit of the box lies in the closed box and on one of its six faces. |
| Boxes.SidePointOnSurface | src/_box.rs:24-74 | For `p0 <= p1`, every point within any one side lies on the box's surface. |
| ConstantMedia.FromTexture | src/constantmedium.rs:20-26 | The phase function is isotropic over the texture, and `neg_inv_density * d == -1`; it is negative for a positive density. |
| ConstantMedia.FromColor | src/constantmedium.rs:28-34 | As `FromTexture`, with a solid colour. |
| ConstantMedia.Hit | src/constantmedium.rs:38-83 | The two boundary queries, on `(-inf, inf)` and from `rec1.t + 0.0001`, then the clipping, give `MediumHit`. A miss of either query is `None`. |
| ConstantMedia.Sample | src/constantmedium.rs:49-82 | Clipping to the interval, clamping the entry at 0 and sampling give `MediumSample`. |
| ConstantMedia.SampleRecordFacts | src/constantmedium.rs:60-82 | The record has `p == r.at(t)`, normal `(1, 0, 0)`, `front_face`, `u == v == 0` and the phase function. Its `t` is non-negative and no earlier than the clipped entry. |
| ConstantMedia.SampleBeyondExit | src/constantmedium.rs:64-72 | A reported `t` is never before the clipped exit `min(rec2.t, t_max)`. |
| ConstantMedia.HitDistanceNonNegative | src/constantmedium.rs:66 | With a positive density and `ln(U) <= 0`, the sampled distance is non-negative. |
| ConstantMedia.HitCanExceedTMax | src/constantmedium.rs:68-72 | For the unit ball crossed at 4 and 6, queried on `[0.001, 5]` with density 1 and `ln(U) = -3`, the reported `t` is 7, beyond `t_max`. |
| Materials.TextureValue | src/texture.rs:28-32 | A solid colour's value is its colour everywhere. |
| Materials.Emitted | src/main.rs:47 | Only a diffuse light emits; a solid-colour light emits its colour. |
| Materials.ReflectanceBounds | src/material.rs:71-75 | For `ref_idx > 0` and a cosine in `[0, 1]`, the reflectance lies in `[r0, 1]`. |
| Materials.R0Bounds | src/material.rs:72-73 | For `ref_idx > 0`, `r0` lies in `[0, 1)`. |
| Materials.R0 | src/material.rs:72-73 | `r0` is never negative, and it is 0 when the index matches air's (`ref_idx == 1`). |
| Materials.Reflectance | src/material.rs:71-75 | At normal incidence (`cosine == 1`) the reflectance is `r0`; at grazing incidence (`cosine == 0`) it is 1. |
| Scattering.LambertianAlwaysScatters | src/material.rs:21-31 | A Lambertian surface always scatters, with its albedo. It uses `normal + unit vector`, or the normal when that sum is near zero. |
| Scattering.MetalAbsorbsIffInward | src/material.rs:46-59 | Metal absorbs iff the fuzzed reflection satisfies `dot(dir, normal) <= 0`. Otherwise it scatters with its albedo. |
| Scattering.DielectricAlwaysScatters | src/material.rs:79-103 | A dielectric always scatters, with attenuation `(1, 1, 1)`. It reflects whenever it cannot refract, and refracts when it neither must nor chooses to reflect. |
| Scattering.RefractionRatio | src/material.rs:80-84 | On a front-face hit the ratio is `1/ir` (`ratio * ir == 1` for `ir != 0`); otherwise it is `ir`. |
| Scattering.ScatterLambertian | src/material.rs:21-31 | Always scatters, with the albedo, from `rec.p` at the incoming ray's time, along `normal + unit vector` or along the normal. |
| Scattering.ScatterMetal | src/material.rs:46-59 | A scattered ray leaves outward, `dot(dir, normal) > 0`, with the albedo, from `rec.p` at the incoming ray's time. |
| Scattering.ScatterDielectric | src/material.rs:79-103 | Always scatters with attenuation `(1, 1, 1)`, from `rec.p` at the incoming ray's time. When it cannot refract, the direction is `reflect(unit_direction, normal)`. |
| Scattering.Scatter | src/material.rs:21-103 | Only a diffuse light, or a metal, absorbs. Every scattered ray starts at `rec.p` and keeps the incoming ray's time. |
| Perlins.BitAndLowBits | src/perlin.rs:43-45 | `a & (2^k - 1) == a mod 2^k` for the bitwise `&` defined bit by bit. |
| Perlins.BitXorBelow | src/perlin.rs:43-45 | The XOR of two numbers below `2^k` is below `2^k`. |
| Perlins.SaturateI32 | src/perlin.rs:35-37 | `floor() as i32` keeps an `i32` value and saturates at the bounds otherwise. |
| Perlins.WrappingAdd | src/perlin.rs:43-45 | `i + di as i32` stays an `i32`, agrees with `i + d` without overflow, and differs from it by a multiple of `2^32` otherwise. |
| Perlins.MaskIsMod256 | src/perlin.rs:43-45 | `x & 255` on an `i32` is `x mod 256`, in `[0, 255]`, also for negative `x`. |
| Perlins.WrappedMaskIsMod256 | src/perlin.rs:43-45 | `(i + d) & 255`, after the `i32` wrap, is `(i + d) mod 256`. |
| Perlins.Xor3 | src/perlin.rs:43-45 | XOR of three entries below 256 is below 256, so the `ranvec` index is in bounds. |
| Perlins.SwapPermutes | src/perlin.rs:103 | A swap keeps the length and the multiset of entries. |
| Perlins.ShuffledPermutes | src/perlin.rs:100-105 | Swapping `i` with a target in `0..=i`, for `i` from `n - 1` down to 1, preserves the multiset of entries. |
| Perlins.Permute | src/perlin.rs:100-105 | The in-place loop leaves the array as the specified shuffle, a permutation of its old contents. |
| Perlins.GeneratePerm | src/perlin.rs:88-98 | The identity fill followed by `permute` gives a fresh array that is a permutation of `0..255`. |
| Perlins.GeneratedIsPermutation | src/perlin.rs:88-98 | The generated table is a permutation of `0..255` for every choice of shuffle targets. |
| Perlins.PermutationFacts | src/perlin.rs:88-98 | A permutation of `0..n-1` has entries below `n`, has no duplicates, and contains every value below `n`. |
| Perlins.Frac | src/perlin.rs:32-34 | `p - p.floor()` lies in `[0, 1)`, and subtracting it leaves an integer. |
| Perlins.Index | src/perlin.rs:43-45 | The table index of corner offset `d` is `(i + d) mod 256`. |
| Perlins.Lattice.Hash | src/perlin.rs:43-45 | The `ranvec` index of every corner is below 256. |
| Perlins.HashIsMod256 | src/perlin.rs:43-45 | The corner's index XORs the three tables' entries at `(cell + d) mod 256`. |
| Perlins.CornersInOrder | src/perlin.rs:38-48 | Corner `(di, dj, dk)` sits at position `4 di + 2 dj + dk` of the gradients passed on. |
| Perlins.DoubledIsScale | src/perlin.rs:58-62 | `k` rounds of `temp_p *= 2` scale the point by `2^k`. |
| Perlins.TurbSumUnfold | src/perlin.rs:58-62 | One more round adds `0.5^k * noise(2^k p)` to the sum. |
| Perlins.TurbSumBounded | src/perlin.rs:53-65 | If `noise` is bounded by `B` in absolute value, `k` rounds sum to at most `2B(1 - 0.5^k)`. |
| Perlins.Perlin.constructor | src/perlin.rs:16-29 | The new tables are the given gradients and three generated permutations, all valid. |
| Perlins.Perlin.Noise | src/perlin.rs:31-51 | The nested loops hand `perlin_interp` the fractional parts and the eight hashed corner gradients. |
| Perlins.Perlin.Turb | src/perlin.rs:53-65 | The loop returns the absolute value of the turbulence sum. The result is non-negative, and 0 when `depth <= 0`. |
| Render.RayColor | src/main.rs:41-55 | `depth <= 0` returns black. |
| Render.Path | src/main.rs:41-55 | The scene is queried once per call with `depth > 0`: no queries when `depth <= 0`, at most `depth` otherwise, and every query but the last scatters. |
| Render.RayColorIsPathSum | src/main.rs:41-55 | `ray_color` is the sum, over the traced path, of each vertex's light times the attenuations before it. A miss adds the background, an absorbing hit its emission, a scattering hit its emission plus attenuation times the rest. |
| Render.PathChains | src/main.rs:48-49 | Every scattered ray leaves from the hit point and keeps the camera ray's time. |
| Render.DispatchHonoursInterval | src/main.rs:46 | A scene without a participating medium only reports hits inside the queried interval. |
| Render.PathHitsAhead | src/main.rs:46 | In such a scene, every surface the path meets lies at `t >= 0.001`. |
| Render.PixelColor | src/main.rs:440-446 | The `+=` loop leaves the pixel colour equal to the sum, first to last, of `ray_color` of each sample ray with its own draws (`Render.SampleColors`). |

## Left out

- Floating point: `real` replaces `f64`, so rounding, NaN and signed zero are not modelled.
- A zero divisor, where the source would produce an IEEE infinity or NaN, reads as 0 through `Vectors.Quot`. This covers `Vec3 / 0`, a unit vector of a zero vector, a rectangle's `u`, `v` of a degenerate extent, the moving sphere's centre when `time0 == time1`, and `1 / ir` for `ir == 0`, and `Materials.R0` at `ref_idx == -1`.
- The slab test is the exception: its division by a zero direction component follows the IEEE outcome (an infinite bound, or no constraint).
- A ray with a zero direction is a miss for the sphere, moving sphere, rectangle and medium. In the source it yields NaN parameters.
- `partial_cmp(...).unwrap_or(Less)` on NaN keys is not modelled, because real keys always compare.
- `sqrt`, `reflect`, `refract`, `near_zero`, `random_unit_vector`, `random_f64`, `random_i32_in_range` and `ln` are parameters, constrained only where a lemma needs it (`Util.IsSqrt`, `Numerics.ValidSample`).
- The draws of one `ray_color` path are indexed by depth. A medium draws one `ln(U)` per scene query.
- `camera.rs`, `color.rs` (`write_color`), the scene builders and `main()`'s file output, progress timing and printing are not part of this model.
- Textures other than `SolidColor` are colours supplied by the caller (`Kit.pattern`), because they are driven by `sin` and noise.
- `Isotrophic`, `DiffuseLight` and `emitted` are not defined in the shown files. They are modelled as in the textbook: an isotropic phase function scatters in the drawn direction with its texture's colour, and a diffuse light absorbs and emits its texture's colour.
- Spheres.BoundingBox: the shown `Sphere` has no `bounding_box`. The textbook's box, centre ± radius, stands in for it.
- Spheres.BoundingBoxBoundsBall: a negative radius, the hollow-glass trick, gives an inverted box, so the ball lemmas require a radius of at least 0. `MovingSpheres.BoxAtBoundsBall` requires the same.
- The shown `HitRecord` has no `u`, `v`, although the primitives set them. The model carries them; a sphere leaves them at 0.
- `XZRect` and `YZRect` are not shown. They are the axis-permuted analogues of `XYRect`, written once through the frame change `Rects.Project`.
- HitRecords.HitRecord.SetFaceNormal: the `&mut self` update is a function returning the updated record. No record is shared while it is updated, so nothing is lost.
- Bvhs.SortBy: `sort_by` is a stable sort. The model uses an insertion sort and proves it a sorted permutation; stability is not stated.
- Bvhs.Build: the clone-then-sort-in-place of `BVHNode::new` is a function over sequences. The sort is proved a permutation of the whole vector.
- The `expect` panics of `BVHNode::new` and `box_compare` are excluded by the precondition `Bvhs.AllBoxed`.
- Bvhs.FromList: an empty list is excluded. On span 0 the source takes the sort branch with `mid == start` and recurses without end (src/bvh.rs:21-23, 62-67).
- Bvhs.Build: `start < end` is required for the same reason: the source never returns on an empty span.
- `Perlin::new`'s random fill of `ranvec` is its `gradients` argument.
- `perlin_interp` is a parameter `interp`, because it is floating-point smoothing.
- Perlins.WrappingAdd: `i + di as i32` is taken to wrap, as in a release build. A debug build would panic on overflow.
- The local array `c[2][2][2]` of `noise` is a sequence of eight gradients.
- `dyn Hittable` in `ray_color` is a function value, `Render.Scene`. `Render.Dispatch` connects it to `Hittables.Hit`.
- Hittables.HitWithinInterval: it is stated for objects with no constant medium inside. A medium can report `t` beyond `t_max` (`ConstantMedia.HitCanExceedTMax`).
- The commented-out debug printing of `ConstantMedium::hit` is not modelled.
