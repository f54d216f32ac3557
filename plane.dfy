/** An infinite plane through `pos` with normal `dir` (src/shapes/plane.cpp).
    `Disc` and `Diamond` repeat its ray/plane step, so the two facts about
    that step are stated here once. */
module ShapePlane {
  import opened Wrappers
  import opened Floats
  import opened Vectors
  import opened Core

  class Plane {
    var material: Material
    var pos: Vec3
    var dir: Vec3

    /** The class declaration that goes with plane.cpp is not part of this
        model; the constructor takes every field. */
    constructor(material: Material, pos: Vec3, dir: Vec3)
      ensures this.material == material && this.pos == pos && this.dir == dir
    {
      this.material := material;
      this.pos := pos;
      this.dir := dir;
    }

    method WithMaterial(value: Material) returns (self: Plane)
      modifies this
      ensures self == this
      ensures material == value && pos == old(pos) && dir == old(dir)
    {
      material := value;
      self := this;
    }

    method WithPos(value: Vec3) returns (self: Plane)
      modifies this
      ensures self == this
      ensures pos == value && material == old(material) && dir == old(dir)
    {
      pos := value;
      self := this;
    }

    method WithDir(value: Vec3) returns (self: Plane)
      modifies this
      ensures self == this
      ensures dir == value && material == old(material) && pos == old(pos)
    {
      dir := value;
      self := this;
    }

    /** `Plane::intersect`. A parallel ray and a plane at or behind the origin
        miss, and every other ray hits at the crossing parameter `t`. A hit
        carries this plane's material, and its normal is `dir` or `-dir`,
        whichever faces the ray. */
    function Intersect(ray: Ray): (r: Intersection)
      reads this
      ensures Dot(dir, ray.dir) == 0.0 ==> r == NoIntersection()
      ensures r.hit <==> Dot(dir, ray.dir) != 0.0 && Crossing(dir, pos, ray) > 0.0
      ensures r.hit ==> r.dist == Finite(Crossing(dir, pos, ray))
      ensures r.hit <==> r.dist.Finite?
      ensures r.hit ==> r.dist.value > 0.0 && r.local.material == Some(material)
      ensures r.hit ==> r.local.pos == Add(ray.pos, Scale(ray.dir, r.dist.value))
      ensures r.hit ==> Dot(dir, Sub(r.local.pos, pos)) == 0.0
      ensures r.hit ==> r.local.normal == if Dot(dir, ray.dir) > 0.0 then Reverse(dir) else dir
      ensures r.hit ==> Dot(r.local.normal, ray.dir) < 0.0
      ensures !r.hit ==> r == NoIntersection()
    {
      var rayN := Dot(dir, ray.dir);
      if rayN == 0.0 then NoIntersection()
      else
        var t := Dot(dir, Sub(pos, ray.pos)) / rayN;
        if t <= 0.0 then NoIntersection()
        else
          PlaneParameter(dir, pos, ray);
          FacingNormal(dir, ray.dir);
          Intersection(
            LocalSurface(Add(ray.pos, Scale(ray.dir, t)), if rayN > 0.0 then Reverse(dir) else dir, Some(material)),
            Finite(t), true)
    }
  }

  /** The ray parameter at which a ray crosses the plane through `q` with
      normal `n`, when it is not parallel. */
  function Crossing(n: Vec3, q: Vec3, ray: Ray): real
    requires Dot(n, ray.dir) != 0.0
  {
    Dot(n, Sub(q, ray.pos)) / Dot(n, ray.dir)
  }

  /** The point at the crossing parameter lies on the plane. */
  lemma PlaneParameter(n: Vec3, q: Vec3, ray: Ray)
    requires Dot(n, ray.dir) != 0.0
    ensures Dot(n, Sub(Add(ray.pos, Scale(ray.dir, Crossing(n, q, ray))), q)) == 0.0
  {
    var t := Crossing(n, q, ray);
    var hit := Add(ray.pos, Scale(ray.dir, t));
    DotSub(n, hit, q);
    DotAdd(n, ray.pos, Scale(ray.dir, t));
    DotSymmetric(n, Scale(ray.dir, t));
    DotScale(ray.dir, n, t);
    DotSymmetric(ray.dir, n);
    DotSub(n, q, ray.pos);
    DivisionCancels(Dot(n, Sub(q, ray.pos)), Dot(n, ray.dir));
  }

  lemma DivisionCancels(x: real, y: real)
    requires y != 0.0
    ensures x / y * y == x
  {
  }

  /** `(ray_n > 0) ? -n : n` points against the ray whenever the ray is not
      parallel to the plane. */
  lemma FacingNormal(n: Vec3, d: Vec3)
    requires Dot(n, d) != 0.0
    ensures Dot(if Dot(n, d) > 0.0 then Reverse(n) else n, d) < 0.0
  {
    DotReverse(n, d);
  }

  /** A ray aimed at the plane from its front side reaches it at the distance
      of the origin from the plane. */
  lemma PlaneHeadOn(p: Plane, ray: Ray)
    requires NormSquared(p.dir) == 1.0 && ray.dir == Reverse(p.dir)
    requires Dot(p.dir, Sub(ray.pos, p.pos)) > 0.0
    ensures p.Intersect(ray).hit
    ensures p.Intersect(ray).dist == Finite(Dot(p.dir, Sub(ray.pos, p.pos)))
    ensures p.Intersect(ray).local.normal == p.dir
  {
    DotReverse(p.dir, p.dir);
    ReverseInvolution(p.dir);
    assert Dot(p.dir, ray.dir) == -1.0 by {
      DotSymmetric(Reverse(p.dir), p.dir);
    }
    DotSub(p.dir, p.pos, ray.pos);
    DotSub(p.dir, ray.pos, p.pos);
  }
}
