/** A diamond: the plane through `pos` with normal `dir`, clipped along the
    two half-diagonals `a` and `b` (src/shapes/diamond.cpp). The clip measures
    the hit point from the world origin, not from `pos`. */
module ShapeDiamond {
  import opened Wrappers
  import opened Floats
  import opened Vectors
  import opened Core
  import opened ShapePlane

  class Diamond {
    var material: Material
    var pos: Vec3
    var a: Vec3
    var b: Vec3
    var dir: Vec3

    /** The class declaration that goes with diamond.cpp is not part of this
        model; the constructor takes every field. */
    constructor(material: Material, pos: Vec3, a: Vec3, b: Vec3, dir: Vec3)
      ensures this.material == material && this.pos == pos && this.a == a && this.b == b && this.dir == dir
    {
      this.material := material;
      this.pos := pos;
      this.a := a;
      this.b := b;
      this.dir := dir;
    }

    method WithMaterial(value: Material) returns (self: Diamond)
      modifies this
      ensures self == this
      ensures material == value && pos == old(pos) && a == old(a) && b == old(b) && dir == old(dir)
    {
      material := value;
      self := this;
    }

    method WithPos(value: Vec3) returns (self: Diamond)
      modifies this
      ensures self == this
      ensures pos == value && material == old(material) && a == old(a) && b == old(b) && dir == old(dir)
    {
      pos := value;
      self := this;
    }

    /** `with_a` does not recompute the normal `dir`. */
    method WithA(value: Vec3) returns (self: Diamond)
      modifies this
      ensures self == this
      ensures a == value && material == old(material) && pos == old(pos) && b == old(b) && dir == old(dir)
    {
      a := value;
      self := this;
    }

    /** `with_b` does not recompute the normal `dir` either. */
    method WithB(value: Vec3) returns (self: Diamond)
      modifies this
      ensures self == this
      ensures b == value && material == old(material) && pos == old(pos) && a == old(a) && dir == old(dir)
    {
      b := value;
      self := this;
    }

    /** `Diamond::intersect`: the plane step, then a miss when the crossing
        point, projected on `a` or on `b`, lies beyond that vector's length. */
    function Intersect(ray: Ray, sqrt: real -> real): (r: Intersection)
      reads this
      requires IsSqrt(sqrt)
      ensures Dot(dir, ray.dir) == 0.0 ==> r == NoIntersection()
      ensures r.hit <==> r.dist.Finite?
      ensures r.hit ==> r.dist.value > 0.0 && r.local.material == Some(material)
      ensures r.hit ==> r.local.pos == Add(ray.pos, Scale(ray.dir, r.dist.value))
      ensures r.hit ==> Dot(dir, Sub(r.local.pos, pos)) == 0.0
      ensures r.hit ==> r.local.normal == if Dot(dir, ray.dir) > 0.0 then Reverse(dir) else dir
      ensures r.hit ==> Dot(r.local.normal, ray.dir) < 0.0
      ensures r.hit ==> WithinAlong(a, r.local.pos) && WithinAlong(b, r.local.pos)
      ensures !r.hit ==> r == NoIntersection()
    {
      var rayN := Dot(dir, ray.dir);
      if rayN == 0.0 then NoIntersection()
      else
        var t := Dot(dir, Sub(pos, ray.pos)) / rayN;
        if t <= 0.0 then NoIntersection()
        else
          var p := Add(ray.pos, Scale(ray.dir, t));
          var mA := Norm(a, sqrt);
          var mB := Norm(b, sqrt);
          if OutsideAlong(Dot(a, p), mA) || OutsideAlong(Dot(b, p), mB) then NoIntersection()
          else
            ClipAlong(a, p, sqrt);
            ClipAlong(b, p, sqrt);
            PlaneParameter(dir, pos, ray);
            FacingNormal(dir, ray.dir);
            Intersection(LocalSurface(p, if rayN > 0.0 then Reverse(dir) else dir, Some(material)), Finite(t), true)
    }
  }

  /** The test `std::abs(v.dot(pos) / |v|) > |v|` with `m` for `|v|`. A zero
      `v` gives 0/0, a NaN, and NaN compares false, so it never rejects. */
  predicate OutsideAlong(x: real, m: real)
  {
    m != 0.0 && Abs(x / m) > m
  }

  /** The same bound without the square root: the projection of `p` on `v` is
      at most `|v|²`, or `v` is zero. */
  predicate WithinAlong(v: Vec3, p: Vec3)
  {
    NormSquared(v) == 0.0 || Abs(Dot(v, p)) <= NormSquared(v)
  }

  /** The source's test rejects exactly the points outside `WithinAlong`. */
  lemma ClipAlong(v: Vec3, p: Vec3, sqrt: real -> real)
    requires IsSqrt(sqrt)
    ensures !OutsideAlong(Dot(v, p), Norm(v, sqrt)) <==> WithinAlong(v, p)
  {
    NormSquaredNonNegative(v);
    var m := Norm(v, sqrt);
    var q := NormSquared(v);
    assert 0.0 <= m && m * m == q;
    var x := Dot(v, p);
    if m != 0.0 {
      assert Abs(x / m) == Abs(x) / m;
      QuotientAbove(Abs(x), m, q);
    } else {
      assert q == 0.0;
    }
  }

  /** The diamond's result is the plane's result when the crossing point lies
      within both half-diagonals, and a miss otherwise. */
  lemma DiamondClipsPlane(d: Diamond, p: Plane, ray: Ray, sqrt: real -> real)
    requires IsSqrt(sqrt)
    requires p.pos == d.pos && p.dir == d.dir && p.material == d.material
    ensures d.Intersect(ray, sqrt) ==
              if p.Intersect(ray).hit && WithinAlong(d.a, p.Intersect(ray).local.pos)
                                      && WithinAlong(d.b, p.Intersect(ray).local.pos)
              then p.Intersect(ray) else NoIntersection()
  {
    if Dot(d.dir, ray.dir) != 0.0 {
      var t := Dot(d.dir, Sub(d.pos, ray.pos)) / Dot(d.dir, ray.dir);
      var pt := Add(ray.pos, Scale(ray.dir, t));
      ClipAlong(d.a, pt, sqrt);
      ClipAlong(d.b, pt, sqrt);
    }
  }

  /** Because the clip measures from the world origin, a diamond centred
      away from it misses a ray aimed straight at its own centre. */
  lemma DiamondAwayFromOrigin(d: Diamond, ray: Ray, sqrt: real -> real)
    requires IsSqrt(sqrt)
    requires d.pos == [10.0, 0.0, 0.0] && d.dir == [0.0, 0.0, 1.0]
    requires d.a == [1.0, 0.0, 0.0] && d.b == [0.0, 1.0, 0.0]
    requires ray == Ray([10.0, 0.0, 5.0], [0.0, 0.0, -1.0])
    ensures !d.Intersect(ray, sqrt).hit
  {
    Dot3(d.dir, ray.dir);
    Dot3(d.dir, Sub(d.pos, ray.pos));
    var p := Add(ray.pos, Scale(ray.dir, 5.0));
    assert p == [10.0, 0.0, 0.0];
    Dot3(d.a, p);
    Dot3(d.a, d.a);
    assert !WithinAlong(d.a, p);
    ClipAlong(d.a, p, sqrt);
  }
}
