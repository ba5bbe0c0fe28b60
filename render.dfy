/** The recursive integrator `ray_color` of src/main.rs and the sum of a
    pixel's samples. The camera that produces the sample rays and the
    random values each bounce draws come from outside: the rays are
    parameters, and `draws(d)` are the values drawn by the call at depth
    `d` (each depth is visited at most once along a path). */
module Render {
  import opened Vectors
  import opened Rays
  import opened Util
  import opened Numerics
  import opened Materials
  import opened HitRecords
  import opened Hittables
  import opened Scattering

  /** The lower end of every scene query: `0.001`, which keeps a scattered
      ray from hitting the surface it leaves. The upper end is
      `f64::INFINITY`. */
  const SceneTMin: real := 0.001

  const One := Vec3(1.0, 1.0, 1.0)

  /** `hit` of a `&dyn Hittable`: the ray, the interval, and the
      `random_f64().ln()` a medium draws. */
  type Scene = (Ray, ExtReal, ExtReal, real) -> Option<HitRecord>

  /** The scene that dispatches to `Hittable` `h`. */
  function Dispatch(h: Hittable, sqrt: real -> real): Scene {
    (r, tMin, tMax, lnU) => Hit(h, r, tMin, tMax, sqrt, lnU)
  }

  /** `world.hit(r, 0.001, f64::INFINITY)`, with the medium draw of sample `s`. */
  function SceneHit(world: Scene, r: Ray, s: Sample): Option<HitRecord> {
    world(r, Finite(SceneTMin), PosInf, s.lnUniform)
  }

  /** `ray_color(r, background, world, depth)`. */
  function RayColor(r: Ray, background: Vec3, world: Scene, depth: int, kit: Kit, draws: int -> Sample): (c: Vec3)
    ensures depth <= 0 ==> c == Zero
    decreases depth
  {
    if depth <= 0 then Zero
    else
      match SceneHit(world, r, draws(depth))
      case None => background
      case Some(rec) =>
        var emitted := Emitted(rec.mat, rec.u, rec.v, rec.p, kit);
        match Scatter(r, rec, draws(depth), kit)
        case Some(s) => Add(emitted, Mul(s.attenuation, RayColor(s.scattered, background, world, depth - 1, kit, draws)))
        case None => emitted
  }

  // ---------------------------------------------------------------------
  // The path a call of `ray_color` traces.

  /** What one scene query along the path found: nothing, a surface that
      absorbs, or a surface that scatters into `next`. */
  datatype Event =
    | Miss
    | Absorb(emitted: Vec3, rec: HitRecord)
    | Bounce(emitted: Vec3, attenuation: Vec3, rec: HitRecord, next: Ray)

  /** The events of the scene queries `ray_color(r, ..., depth)` makes, in
      order. There is one query per call with `depth > 0`, so the path is
      empty exactly when `depth <= 0`, holds at most `depth` events, and
      every event but the last is a bounce. */
  function Path(r: Ray, world: Scene, depth: int, kit: Kit, draws: int -> Sample): (p: seq<Event>)
    ensures |p| <= if depth <= 0 then 0 else depth
    ensures |p| == 0 <==> depth <= 0
    ensures forall i :: 0 <= i < |p| - 1 ==> p[i].Bounce?
    decreases depth
  {
    if depth <= 0 then []
    else
      match SceneHit(world, r, draws(depth))
      case None => [Miss]
      case Some(rec) =>
        var emitted := Emitted(rec.mat, rec.u, rec.v, rec.p, kit);
        match Scatter(r, rec, draws(depth), kit)
        case Some(s) => [Bounce(emitted, s.attenuation, rec, s.scattered)] + Path(s.scattered, world, depth - 1, kit, draws)
        case None => [Absorb(emitted, rec)]
  }

  /** The light an event adds at its own vertex. */
  function Contribution(e: Event, background: Vec3): Vec3 {
    match e
    case Miss => background
    case Absorb(emitted, _) => emitted
    case Bounce(emitted, _, _, _) => emitted
  }

  /** The factor an event applies to the light behind it. */
  function Attenuation(e: Event): Vec3 {
    if e.Bounce? then e.attenuation else One
  }

  /** The product of the attenuations of the first `k` events. */
  function Throughput(p: seq<Event>, k: nat): Vec3
    requires k <= |p|
  {
    if k == 0 then One else Mul(Throughput(p, k - 1), Attenuation(p[k - 1]))
  }

  /** The throughput-weighted sum of the first `k` contributions: the
      estimate of a path tracer that walks the path front to back. */
  function PathSum(p: seq<Event>, background: Vec3, k: nat): Vec3
    requires k <= |p|
  {
    if k == 0 then Zero
    else Add(PathSum(p, background, k - 1), Mul(Throughput(p, k - 1), Contribution(p[k - 1], background)))
  }

  lemma MulAssociates(a: Vec3, b: Vec3, c: Vec3)
    ensures Mul(Mul(a, b), c) == Mul(a, Mul(b, c))
  {
    assert a.x * b.x * c.x == a.x * (b.x * c.x);
    assert a.y * b.y * c.y == a.y * (b.y * c.y);
    assert a.z * b.z * c.z == a.z * (b.z * c.z);
  }

  lemma AddAssociates(a: Vec3, b: Vec3, c: Vec3)
    ensures Add(Add(a, b), c) == Add(a, Add(b, c))
  {
  }

  /** `a * (s + t * c) == a * s + (a * t) * c`, componentwise. */
  lemma MulDistributes(a: Vec3, s: Vec3, t: Vec3, c: Vec3)
    ensures Mul(a, Add(s, Mul(t, c))) == Add(Mul(a, s), Mul(Mul(a, t), c))
  {
    assert a.x * (s.x + t.x * c.x) == a.x * s.x + a.x * t.x * c.x;
    assert a.y * (s.y + t.y * c.y) == a.y * s.y + a.y * t.y * c.y;
    assert a.z * (s.z + t.z * c.z) == a.z * s.z + a.z * t.z * c.z;
  }

  /** Putting an event in front of a path multiplies every throughput of
      the path by that event's attenuation. */
  lemma {:induction false} ConsThroughput(e: Event, q: seq<Event>, k: nat)
    requires k <= |q|
    ensures Throughput([e] + q, k + 1) == Mul(Attenuation(e), Throughput(q, k))
  {
    if k == 0 {
      ConsThroughputBase(e, q);
    } else {
      ConsThroughput(e, q, k - 1);
      ConsThroughputStep(e, q, k);
    }
  }

  lemma ConsThroughputBase(e: Event, q: seq<Event>)
    ensures Throughput([e] + q, 1) == Mul(Attenuation(e), Throughput(q, 0))
  {
    var p, a := [e] + q, Attenuation(e);
    assert p[0] == e;
    assert Throughput(p, 1) == Mul(One, a);
    MulOne(a);
  }

  lemma AddZero(a: Vec3)
    ensures Add(Zero, a) == a
  {
  }

  lemma MulOne(a: Vec3)
    ensures Mul(One, a) == a && Mul(a, One) == a
  {
  }

  lemma ConsThroughputStep(e: Event, q: seq<Event>, k: nat)
    requires 0 < k <= |q|
    requires Throughput([e] + q, k) == Mul(Attenuation(e), Throughput(q, k - 1))
    ensures Throughput([e] + q, k + 1) == Mul(Attenuation(e), Throughput(q, k))
  {
    var p := [e] + q;
    var a, t, x := Attenuation(e), Throughput(q, k - 1), Attenuation(q[k - 1]);
    assert p[k] == q[k - 1];
    assert Throughput(p, k + 1) == Mul(Throughput(p, k), x);
    assert Throughput(q, k) == Mul(t, x);
    MulAssociates(a, t, x);
  }

  /** Putting an event in front of a path adds its contribution and
      attenuates the rest of the sum. */
  lemma {:induction false} ConsPathSum(e: Event, q: seq<Event>, background: Vec3, k: nat)
    requires k <= |q|
    ensures PathSum([e] + q, background, k + 1)
      == Add(Contribution(e, background), Mul(Attenuation(e), PathSum(q, background, k)))
  {
    var p := [e] + q;
    var a := Attenuation(e);
    var c := Contribution(e, background);
    if k == 0 {
      assert p[0] == e;
      assert PathSum(p, background, 1) == Add(Zero, Mul(One, c));
      MulOne(c);
      AddZero(c);
    } else {
      ConsPathSum(e, q, background, k - 1);
      ConsThroughput(e, q, k - 1);
      assert p[k] == q[k - 1];
      var s := PathSum(q, background, k - 1);
      var t := Throughput(q, k - 1);
      var ck := Contribution(q[k - 1], background);
      assert PathSum(p, background, k + 1) == Add(Add(c, Mul(a, s)), Mul(Mul(a, t), ck));
      AddAssociates(c, Mul(a, s), Mul(Mul(a, t), ck));
      MulDistributes(a, s, t, ck);
    }
  }

  /** The recursion of `ray_color` computes the throughput-weighted sum of
      the light found along its path: each vertex's emitted light (or the
      background where the path leaves the scene), times the product of
      the attenuations before it. */
  lemma {:induction false} RayColorIsPathSum(r: Ray, background: Vec3, world: Scene, depth: int, kit: Kit, draws: int -> Sample)
    ensures var p := Path(r, world, depth, kit, draws);
      RayColor(r, background, world, depth, kit, draws) == PathSum(p, background, |p|)
    decreases depth
  {
    var p := Path(r, world, depth, kit, draws);
    var c := RayColor(r, background, world, depth, kit, draws);
    if depth > 0 {
      var hit := SceneHit(world, r, draws(depth));
      if hit.Some? {
        var rec := hit.value;
        var emitted := Emitted(rec.mat, rec.u, rec.v, rec.p, kit);
        var sc := Scatter(r, rec, draws(depth), kit);
        if sc.Some? {
          var s := sc.value;
          var e := Bounce(emitted, s.attenuation, rec, s.scattered);
          var q := Path(s.scattered, world, depth - 1, kit, draws);
          var rest := RayColor(s.scattered, background, world, depth - 1, kit, draws);
          assert p == [e] + q;
          assert c == Add(emitted, Mul(s.attenuation, rest));
          RayColorIsPathSum(s.scattered, background, world, depth - 1, kit, draws);
          ConsPathSum(e, q, background, |q|);
          BounceSum(p, e, q, background, c, rest);
        } else {
          assert p == [Absorb(emitted, rec)] && c == emitted;
          SingleEventSum(Absorb(emitted, rec), background);
        }
      } else {
        assert p == [Miss] && c == background;
        SingleEventSum(Miss, background);
      }
    }
  }

  /** The one-event path sums to that event's contribution. */
  lemma SingleEventSum(x: Event, background: Vec3)
    ensures PathSum([x], background, 1) == Contribution(x, background)
  {
    var c := Contribution(x, background);
    assert PathSum([x], background, 1) == Add(Zero, Mul(One, c));
    MulOne(c);
    AddZero(c);
  }

  /** The last step of `RayColorIsPathSum` for a bounce, with the unfolded
      pieces passed in as values. */
  lemma BounceSum(p: seq<Event>, e: Event, q: seq<Event>, background: Vec3, c: Vec3, rest: Vec3)
    requires e.Bounce? && p == [e] + q
    requires c == Add(e.emitted, Mul(e.attenuation, rest))
    requires rest == PathSum(q, background, |q|)
    requires PathSum(p, background, |q| + 1)
      == Add(Contribution(e, background), Mul(Attenuation(e), PathSum(q, background, |q|)))
    ensures c == PathSum(p, background, |p|)
  {
  }

  /** Each scattered ray of path `p` leaves from the point it was
      scattered at, with time `tm`. */
  predicate Chained(p: seq<Event>, tm: real) {
    forall i :: 0 <= i < |p| && p[i].Bounce? ==> p[i].next.orig == p[i].rec.p && p[i].next.tm == tm
  }

  /** Each scattered ray of the path leaves from the point it was
      scattered at, with the time of the camera ray. */
  lemma {:induction false} PathChains(r: Ray, world: Scene, depth: int, kit: Kit, draws: int -> Sample)
    ensures Chained(Path(r, world, depth, kit, draws), r.tm)
    decreases depth
  {
    if depth > 0 {
      var s := draws(depth);
      var hit := SceneHit(world, r, s);
      if hit.Some? {
        var rec := hit.value;
        var sc := Scatter(r, rec, s, kit);
        if sc.Some? {
          var next := sc.value.scattered;
          var p := Path(r, world, depth, kit, draws);
          var q := Path(next, world, depth - 1, kit, draws);
          assert p == [Bounce(Emitted(rec.mat, rec.u, rec.v, rec.p, kit), sc.value.attenuation, rec, next)] + q;
          PathChains(next, world, depth - 1, kit, draws);
          assert forall i :: 1 <= i < |p| ==> p[i] == q[i - 1];
        }
      }
    }
  }

  /** A scene whose every hit lies in the interval it was asked about. */
  ghost predicate HonoursInterval(world: Scene) {
    forall r, tMin, tMax, lnU :: world(r, tMin, tMax, lnU).Some? ==> Within(world(r, tMin, tMax, lnU).value.t, tMin, tMax)
  }

  /** A scene without a participating medium honours the interval. */
  lemma DispatchHonoursInterval(h: Hittable, sqrt: real -> real)
    requires MediumFree(h)
    ensures HonoursInterval(Dispatch(h, sqrt))
  {
    forall r, tMin, tMax, lnU
      ensures var rec := Dispatch(h, sqrt)(r, tMin, tMax, lnU); rec.Some? ==> Within(rec.value.t, tMin, tMax)
    {
      HitWithinInterval(h, r, tMin, tMax, sqrt, lnU);
    }
  }

  /** Every surface path `p` meets lies at or beyond `tMin`. */
  predicate Ahead(p: seq<Event>, tMin: real) {
    forall i :: 0 <= i < |p| && !p[i].Miss? ==> tMin <= p[i].rec.t
  }

  /** In a scene that honours the interval, every surface the path meets
      lies at least `0.001` along the ray that found it. */
  lemma {:induction false} PathHitsAhead(r: Ray, world: Scene, depth: int, kit: Kit, draws: int -> Sample)
    requires HonoursInterval(world)
    ensures Ahead(Path(r, world, depth, kit, draws), SceneTMin)
    decreases depth
  {
    if depth > 0 {
      var s := draws(depth);
      var hit := SceneHit(world, r, s);
      if hit.Some? {
        assert Within(hit.value.t, Finite(SceneTMin), PosInf);
        var rec := hit.value;
        var sc := Scatter(r, rec, s, kit);
        if sc.Some? {
          var next := sc.value.scattered;
          var p := Path(r, world, depth, kit, draws);
          var q := Path(next, world, depth - 1, kit, draws);
          assert p == [Bounce(Emitted(rec.mat, rec.u, rec.v, rec.p, kit), sc.value.attenuation, rec, next)] + q;
          PathHitsAhead(next, world, depth - 1, kit, draws);
          assert forall i :: 1 <= i < |p| ==> p[i] == q[i - 1];
        }
      }
    }
  }

  // ---------------------------------------------------------------------
  // A pixel's samples.

  /** The colours of the samples, in order. */
  function SampleColors(rays: seq<Ray>, background: Vec3, world: Scene, maxDepth: int, kit: Kit,
                        draws: seq<int -> Sample>): seq<Vec3>
    requires |draws| == |rays|
  {
    seq(|rays|, i requires 0 <= i < |rays| => RayColor(rays[i], background, world, maxDepth, kit, draws[i]))
  }

  /** The sum of a sequence of colours, first to last. */
  function ColorSum(colors: seq<Vec3>): Vec3 {
    if |colors| == 0 then Zero else Add(ColorSum(colors[..|colors| - 1]), colors[|colors| - 1])
  }

  /** The sample loop of `main()` for one pixel: `pixel_color` starts
      black and `ray_color` of each sample ray is added to it with `+=`.
      `rays` are the rays `cam.get_ray` returned, `draws` the random values
      of each sample's path. */
  method PixelColor(rays: seq<Ray>, background: Vec3, world: Scene, maxDepth: int, kit: Kit,
                    draws: seq<int -> Sample>) returns (c: Vec3)
    requires |draws| == |rays|
    ensures c == ColorSum(SampleColors(rays, background, world, maxDepth, kit, draws))
  {
    ghost var colors := SampleColors(rays, background, world, maxDepth, kit, draws);
    var pixelColor := new MutableVec3(Zero);
    for s := 0 to |rays|
      invariant pixelColor.Valid()
      invariant pixelColor.Value() == ColorSum(colors[..s])
    {
      assert colors[..s + 1][..s] == colors[..s];
      pixelColor.AddAssign(RayColor(rays[s], background, world, maxDepth, kit, draws[s]));
    }
    assert colors[..|rays|] == colors;
    c := pixelColor.Value();
  }
}
