/** The path tracer's core types and its integrator (src/core.hpp): rays,
    materials, the surface record of an intersection, the throwing base
    `Shape::intersect` and the ten-bounce `Integrator::pathtrace` loop. The
    random number generator and the scene are passed in as functions. */
module Core {
  import opened Wrappers
  import opened Floats
  import opened Vectors

  /** `Spectrum` (a `Color`) is a 3-vector of channel values. */
  type Spectrum = Vec3

  const BLACK: Spectrum := [0.0, 0.0, 0.0]
  const WHITE: Spectrum := [1.0, 1.0, 1.0]

  /** The offset along the normal at which a bounced ray starts. */
  const RAY_OFFSET: real := 0.0001

  /** `Ray`: `dir` has type `Unit<Vec3f>` in the source; `UnitRay` states it. */
  datatype Ray = Ray(pos: Vec3, dir: Vec3)

  ghost predicate UnitRay(ray: Ray)
  {
    NormSquared(ray.dir) == 1.0
  }

  datatype Material = Material(diffuse: Spectrum, specular: Spectrum, emission: Spectrum, probSpecular: real)

  /** The member initialisers of `Material`. */
  function DefaultMaterial(): (m: Material)
    ensures m.diffuse == WHITE && m.specular == BLACK && m.emission == BLACK && m.probSpecular == 0.0
  {
    Material(Splat3(1.0), Splat3(0.0), Splat3(0.0), 0.0)
  }

  /** `LocalSurface`: a `material` of `nullptr` is `None`. */
  datatype LocalSurface = LocalSurface(pos: Vec3, normal: Vec3, material: Option<Material>)

  function DefaultSurface(): (s: LocalSurface)
    ensures s.pos == BLACK && s.normal == BLACK && s.material.None?
  {
    LocalSurface(Splat3(0.0), Splat3(0.0), None)
  }

  datatype Intersection = Intersection(local: LocalSurface, dist: Ext, hit: bool)

  /** The member initialisers of `Intersection`: no hit, at INFINITY. */
  function NoIntersection(): (r: Intersection)
    ensures !r.hit && r.dist == Infinity && r.local == DefaultSurface()
  {
    Intersection(DefaultSurface(), Infinity, false)
  }

  /** The `std::logic_error` thrown by a shape without an `intersect`. */
  datatype LogicError = LogicError(message: string)

  /** The base `Shape::intersect` throws instead of reporting a miss. */
  function BaseIntersect(ray: Ray): (r: Result<Intersection, LogicError>)
    ensures r.Err? && r.error.message == "Shape: No intersection implemented!"
  {
    Err(LogicError("Shape: No intersection implemented!"))
  }

  /** `Material::sample_f`: the new ray starts a little above the surface in
      the direction the generator chose (`direction` here), and the
      attenuation is the diffuse colour. */
  function SampleF(m: Material, surface: LocalSurface, direction: Vec3): (r: (Ray, Spectrum))
    ensures r.0.dir == direction && r.1 == m.diffuse
    ensures Sub(r.0.pos, surface.pos) == Scale(surface.normal, RAY_OFFSET)
  {
    var result := (Ray(Add(surface.pos, Scale(surface.normal, RAY_OFFSET)), direction), m.diffuse);
    assert Sub(result.0.pos, surface.pos) == Scale(surface.normal, RAY_OFFSET) by {
      assert forall k :: 0 <= k < 3 ==>
        Sub(result.0.pos, surface.pos)[k] == Scale(surface.normal, RAY_OFFSET)[k];
    }
    result
  }

  /** The new origin lies on the outer side of the surface: its offset has a
      positive component along a non-zero normal. */
  lemma SampleFAboveSurface(m: Material, surface: LocalSurface, direction: Vec3)
    requires NormSquared(surface.normal) > 0.0
    ensures Dot(Sub(SampleF(m, surface, direction).0.pos, surface.pos), surface.normal) > 0.0
  {
    DotScale(surface.normal, surface.normal, RAY_OFFSET);
  }

  /** Neither `specular`, `emission` nor `prob_specular` affects `sample_f`. */
  lemma SampleFUsesOnlyDiffuse(m: Material, m': Material, surface: LocalSurface, direction: Vec3)
    requires m.diffuse == m'.diffuse
    ensures SampleF(m, surface, direction) == SampleF(m', surface, direction)
  {
  }

  // ---------------------------------------------------------------------
  // Integrator::pathtrace

  /** The number of bounces `pathtrace` follows. */
  const MAX_BOUNCES: nat := 10

  /** Every intersection the scene reports as a hit carries a material (the
      source dereferences `material` without testing it). */
  ghost predicate HitsHaveMaterial(scene: Ray -> Result<Intersection, LogicError>)
  {
    forall ray :: scene(ray).Ok? && scene(ray).value.hit ==> scene(ray).value.local.material.Some?
  }

  function MaterialOf(h: Intersection): Material
  {
    if h.local.material.Some? then h.local.material.value else DefaultMaterial()
  }

  /** The hits `pathtrace` visits, and the `std::logic_error` that ended the
      walk, if the scene's `intersect` threw one. */
  datatype Trace = Trace(hits: seq<Intersection>, error: Option<LogicError>)

  /** The walk `pathtrace` makes from bounce `i` on, starting with `ray`: it
      stops at the first miss, at the first throw, or after bounce 9.
      `sample(i, surface)` is the direction the generator returns at bounce
      `i`. */
  function Path(ray: Ray, scene: Ray -> Result<Intersection, LogicError>,
                sample: (nat, LocalSurface) -> Vec3, i: nat): (p: Trace)
    ensures i + |p.hits| <= MAX_BOUNCES || p == Trace([], None)
    ensures p.error.Some? ==> i + |p.hits| < MAX_BOUNCES
    ensures forall k :: 0 <= k < |p.hits| ==> p.hits[k].hit
    decreases MAX_BOUNCES - i
  {
    if i >= MAX_BOUNCES then Trace([], None)
    else
      match scene(ray)
      case Err(e) => Trace([], Some(e))
      case Ok(hit) =>
        if !hit.hit then Trace([], None)
        else
          var rest := Path(Bounce(hit, sample, i), scene, sample, i + 1);
          Trace([hit] + rest.hits, rest.error)
  }

  /** The ray `sample_f` sends on from the hit `hit` at bounce `i`. */
  function Bounce(hit: Intersection, sample: (nat, LocalSurface) -> Vec3, i: nat): Ray
  {
    SampleF(MaterialOf(hit), hit.local, sample(i, hit.local)).0
  }

  /** The walk from bounce `i` after the hits `done`. */
  function After(done: seq<Intersection>, rest: Trace): Trace
  {
    Trace(done + rest.hits, rest.error)
  }

  /** One unrolling of `Path` on a hit, with the hit appended to the hits
      already visited. */
  lemma PathStep(done: seq<Intersection>, ray: Ray, scene: Ray -> Result<Intersection, LogicError>,
                 sample: (nat, LocalSurface) -> Vec3, i: nat)
    requires i < MAX_BOUNCES && scene(ray).Ok? && scene(ray).value.hit
    ensures After(done, Path(ray, scene, sample, i))
         == After(done + [scene(ray).value], Path(Bounce(scene(ray).value, sample, i), scene, sample, i + 1))
  {
    var rest := Path(Bounce(scene(ray).value, sample, i), scene, sample, i + 1);
    assert Path(ray, scene, sample, i) == Trace([scene(ray).value] + rest.hits, rest.error);
    SeqAssoc(done, [scene(ray).value], rest.hits);
  }

  lemma SeqAssoc<T>(a: seq<T>, b: seq<T>, c: seq<T>)
    ensures a + (b + c) == (a + b) + c
  {
  }

  /** `BSDF_prod` after the hits `hs`: the component-wise product of their
      diffuse colours. */
  function Throughput(hs: seq<Intersection>): Spectrum
  {
    if |hs| == 0 then WHITE
    else Mul(Throughput(hs[..|hs| - 1]), MaterialOf(hs[|hs| - 1]).diffuse)
  }

  /** `lum` after the hits `hs`: the sum over k of the throughput before hit k
      times the emission of hit k. */
  function Radiance(hs: seq<Intersection>): Spectrum
  {
    if |hs| == 0 then BLACK
    else
      var before := hs[..|hs| - 1];
      Add(Radiance(before), Mul(Throughput(before), MaterialOf(hs[|hs| - 1]).emission))
  }

  /** What `Integrator::pathtrace` returns for a walk: the exception that
      left the loop, or the radiance gathered along the hits. */
  function Outcome(p: Trace): Result<Spectrum, LogicError>
  {
    if p.error.Some? then Err(p.error.value) else Ok(Radiance(p.hits))
  }

  /** `Integrator::pathtrace`. A `std::logic_error` from the scene's
      `intersect` leaves the loop and the function. `intersections` counts
      the calls of `intersect`: one per hit plus the miss or throw that ends
      the loop early. */
  method Pathtrace(ray0: Ray, scene: Ray -> Result<Intersection, LogicError>,
                   sample: (nat, LocalSurface) -> Vec3)
    returns (r: Result<Spectrum, LogicError>, ghost intersections: nat)
    requires HitsHaveMaterial(scene)
    ensures r == Outcome(Path(ray0, scene, sample, 0))
    ensures intersections ==
              if Path(ray0, scene, sample, 0).error.None? && |Path(ray0, scene, sample, 0).hits| == MAX_BOUNCES
              then MAX_BOUNCES else |Path(ray0, scene, sample, 0).hits| + 1
  {
    var lum := BLACK;
    var bsdfProd := WHITE;
    var ray := ray0;
    ghost var done: seq<Intersection> := [];
    intersections := 0;
    var i := 0;
    assert After([], Path(ray0, scene, sample, 0)) == Path(ray0, scene, sample, 0);
    while i < MAX_BOUNCES
      invariant 0 <= i <= MAX_BOUNCES && |done| == i && intersections == i
      invariant Path(ray0, scene, sample, 0) == After(done, Path(ray, scene, sample, i))
      invariant lum == Radiance(done) && bsdfProd == Throughput(done)
    {
      var outcome := scene(ray);
      intersections := intersections + 1;
      if outcome.Err? {
        assert Path(ray, scene, sample, i) == Trace([], Some(outcome.error));
        assert done + [] == done;
        r := Err(outcome.error);
        return;
      }
      var hit := outcome.value;
      if !hit.hit {
        assert Path(ray, scene, sample, i) == Trace([], None);
        break;
      }
      var surface := hit.local;
      var material := surface.material.value;
      var (newRay, bsdf) := SampleF(material, surface, sample(i, surface));
      assert material == MaterialOf(hit) && newRay == Bounce(hit, sample, i);
      PathStep(done, ray, scene, sample, i);
      assert (done + [hit])[..|done|] == done;
      lum := Add(lum, Mul(bsdfProd, material.emission));
      bsdfProd := Mul(bsdfProd, bsdf);
      done := done + [hit];
      ray := newRay;
      i := i + 1;
    }
    assert Path(ray, scene, sample, i) == Trace([], None);
    assert done + [] == done;
    r := Ok(lum);
  }

  /** A first ray that misses gives exactly BLACK. */
  lemma PathtraceFirstMiss(ray0: Ray, scene: Ray -> Result<Intersection, LogicError>,
                           sample: (nat, LocalSurface) -> Vec3)
    requires scene(ray0).Ok? && !scene(ray0).value.hit
    ensures Path(ray0, scene, sample, 0) == Trace([], None)
    ensures Outcome(Path(ray0, scene, sample, 0)) == Ok(BLACK)
  {
  }

  /** A single hit followed by a miss gives that surface's emission. */
  lemma PathtraceOneBounce(ray0: Ray, scene: Ray -> Result<Intersection, LogicError>,
                           sample: (nat, LocalSurface) -> Vec3)
    requires scene(ray0).Ok? && scene(ray0).value.hit
    requires var next := scene(Bounce(scene(ray0).value, sample, 0)); next.Ok? && !next.value.hit
    ensures Outcome(Path(ray0, scene, sample, 0)) == Ok(MaterialOf(scene(ray0).value).emission)
  {
    var h := scene(ray0).value;
    assert Path(Bounce(h, sample, 0), scene, sample, 1) == Trace([], None);
    assert Path(ray0, scene, sample, 0) == Trace([h], None);
    var hs := [h];
    assert hs[..0] == [];
    var e := MaterialOf(h).emission;
    assert Radiance(hs) == Add(BLACK, Mul(WHITE, e));
    assert forall k :: 0 <= k < 3 ==> Add(BLACK, Mul(WHITE, e))[k] == e[k];
    assert Radiance(hs) == e;
  }

  /** A throw at any bounce is what `pathtrace` reports, whatever it had
      gathered before. */
  lemma {:induction false} PathtraceThrows(ray: Ray, scene: Ray -> Result<Intersection, LogicError>,
                                           sample: (nat, LocalSurface) -> Vec3, i: nat)
    requires Path(ray, scene, sample, i).error.Some?
    ensures exists k :: i <= k < MAX_BOUNCES && Throws(scene, RayAt(ray, scene, sample, i, k))
    decreases MAX_BOUNCES - i
  {
    match scene(ray)
    case Err(_) =>
      assert RayAt(ray, scene, sample, i, i) == ray;
      assert Throws(scene, RayAt(ray, scene, sample, i, i));
    case Ok(hit) =>
      var next := Bounce(hit, sample, i);
      PathtraceThrows(next, scene, sample, i + 1);
      var k :| i + 1 <= k < MAX_BOUNCES && Throws(scene, RayAt(next, scene, sample, i + 1, k));
      assert RayAt(ray, scene, sample, i, k) == RayAt(next, scene, sample, i + 1, k);
  }

  /** A scene whose `intersect` never throws never makes `pathtrace` throw. */
  lemma {:induction false} PathtraceNoThrow(ray: Ray, scene: Ray -> Result<Intersection, LogicError>,
                                            sample: (nat, LocalSurface) -> Vec3, i: nat)
    requires forall q :: scene(q).Ok?
    ensures Path(ray, scene, sample, i).error.None?
    decreases MAX_BOUNCES - i
  {
    if i < MAX_BOUNCES && scene(ray).value.hit {
      PathtraceNoThrow(Bounce(scene(ray).value, sample, i), scene, sample, i + 1);
    }
  }

  /** A scene that is the base `Shape` throws on the first ray, so
      `pathtrace` passes on its `logic_error`. */
  lemma PathtraceBaseScene(ray0: Ray, sample: (nat, LocalSurface) -> Vec3)
    ensures Outcome(Path(ray0, BaseIntersect, sample, 0)).Err?
    ensures Outcome(Path(ray0, BaseIntersect, sample, 0)).error.message == "Shape: No intersection implemented!"
  {
  }

  predicate Throws(scene: Ray -> Result<Intersection, LogicError>, ray: Ray)
  {
    scene(ray).Err?
  }

  /** The ray of bounce `k` for a walk that is at `ray` at bounce `i`,
      following the scene's hits (and staying put once there is none). */
  function RayAt(ray: Ray, scene: Ray -> Result<Intersection, LogicError>,
                 sample: (nat, LocalSurface) -> Vec3, i: nat, k: nat): Ray
    decreases k - i
  {
    if k <= i then ray
    else if scene(ray).Ok? && scene(ray).value.hit then
      RayAt(Bounce(scene(ray).value, sample, i), scene, sample, i + 1, k)
    else ray
  }

  /** With no emitting surface on the path the result is BLACK. */
  lemma {:induction false} RadianceWithoutEmission(hs: seq<Intersection>)
    requires forall k :: 0 <= k < |hs| ==> MaterialOf(hs[k]).emission == BLACK
    ensures Radiance(hs) == BLACK
  {
    if |hs| > 0 {
      var before := hs[..|hs| - 1];
      assert forall k :: 0 <= k < |before| ==> before[k] == hs[k];
      RadianceWithoutEmission(before);
      var t := Throughput(before);
      assert forall k :: 0 <= k < 3 ==> Add(BLACK, Mul(t, BLACK))[k] == 0.0;
    }
  }

  /** A path is followed for at most ten bounces. */
  lemma PathBound(ray0: Ray, scene: Ray -> Result<Intersection, LogicError>,
                  sample: (nat, LocalSurface) -> Vec3)
    ensures |Path(ray0, scene, sample, 0).hits| <= MAX_BOUNCES
  {
  }
}
