/** A disc: the plane through `pos` with normal `dir`, clipped to `radius`
    around `pos` (src/shapes/disc.cpp). */
module ShapeDisc {
  import opened Wrappers
  import opened Floats
  import opened Vectors
  import opened Core
  import opened ShapePlane

  class Disc {
    var material: Material
    var pos: Vec3
    var dir: Vec3
    var radius: real

    /** The class declaration that goes with disc.cpp is not part of this
        model; the constructor takes every field. */
    constructor(material: Material, pos: Vec3, dir: Vec3, radius: real)
      ensures this.material == material && this.pos == pos && this.dir == dir && this.radius == radius
    {
      this.material := material;
      this.pos := pos;
      this.dir := dir;
      this.radius := radius;
    }

    method WithMaterial(value: Material) returns (self: Disc)
      modifies this
      ensures self == this
      ensures material == value && pos == old(pos) && dir == old(dir) && radius == old(radius)
    {
      material := value;
      self := this;
    }

    method WithPos(value: Vec3) returns (self: Disc)
      modifies this
      ensures self == this
      ensures pos == value && material == old(material) && dir == old(dir) && radius == old(radius)
    {
      pos := value;
      self := this;
    }

    method WithDir(value: Vec3) returns (self: Disc)
      modifies this
      ensures self == this
      ensures dir == value && material == old(material) && pos == old(pos) && radius == old(radius)
    {
      dir := value;
      self := this;
    }

    method WithRadius(value: real) returns (self: Disc)
      modifies this
      ensures self == this
      ensures radius == value && material == old(material) && pos == old(pos) && dir == old(dir)
    {
      radius := value;
      self := this;
    }

    /** `Disc::intersect`: the plane step, then a miss when the crossing point
        lies farther than `radius` from the centre. */
    function Intersect(ray: Ray): (r: Intersection)
      reads this
      ensures Dot(dir, ray.dir) == 0.0 ==> r == NoIntersection()
      ensures r.hit <==> r.dist.Finite?
      ensures r.hit ==> r.dist.value > 0.0 && r.local.material == Some(material)
      ensures r.hit ==> NormSquared(Sub(r.local.pos, pos)) <= radius * radius
      ensures r.hit ==> Dot(dir, Sub(r.local.pos, pos)) == 0.0
      ensures r.hit ==> r.local.normal == if Dot(dir, ray.dir) > 0.0 then Reverse(dir) else dir
      ensures r.hit ==> Dot(r.local.normal, ray.dir) < 0.0
      ensures !r.hit ==> r == NoIntersection()
    {
      var rayN := Dot(dir, ray.dir);
      if rayN == 0.0 then NoIntersection()
      else
        var t := Dot(dir, Sub(pos, ray.pos)) / rayN;
        if t <= 0.0 then NoIntersection()
        else
          var p := Add(ray.pos, Scale(ray.dir, t));
          if NormSquared(Sub(p, pos)) > radius * radius then NoIntersection()
          else
            PlaneParameter(dir, pos, ray);
            FacingNormal(dir, ray.dir);
            Intersection(LocalSurface(p, if rayN > 0.0 then Reverse(dir) else dir, Some(material)), Finite(t), true)
    }
  }

  /** A disc hit is the hit of the unbounded plane with the same position,
      normal and material, and a plane miss is a disc miss. */
  lemma DiscRefinesPlane(d: Disc, p: Plane, ray: Ray)
    requires p.pos == d.pos && p.dir == d.dir && p.material == d.material
    ensures d.Intersect(ray).hit ==> d.Intersect(ray) == p.Intersect(ray)
    ensures !p.Intersect(ray).hit ==> !d.Intersect(ray).hit
  {
  }

  /** Within the rim the disc and the plane agree exactly. */
  lemma DiscInsideRim(d: Disc, p: Plane, ray: Ray)
    requires p.pos == d.pos && p.dir == d.dir && p.material == d.material
    requires p.Intersect(ray).hit
    requires NormSquared(Sub(p.Intersect(ray).local.pos, d.pos)) <= d.radius * d.radius
    ensures d.Intersect(ray) == p.Intersect(ray)
  {
  }
}
