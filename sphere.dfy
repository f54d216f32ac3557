/** A sphere of `radius` around `pos` (src/shapes/sphere.cpp). The ray
    `x + t*dir`, with `x` the origin relative to the centre, meets the
    sphere where t^2 + 2pt + q = 0, p = x.dir, q = |x|^2 - R^2; the
    discriminant is D = p^2 - q. */
module ShapeSphere {
  import opened Wrappers
  import opened Floats
  import opened Vectors
  import opened Core

  class Sphere {
    var material: Material
    var pos: Vec3
    var radius: real

    /** The class declaration that goes with sphere.cpp is not part of this
        model; the constructor takes every field. */
    constructor(material: Material, pos: Vec3, radius: real)
      ensures this.material == material && this.pos == pos && this.radius == radius
    {
      this.material := material;
      this.pos := pos;
      this.radius := radius;
    }

    method WithMaterial(value: Material) returns (self: Sphere)
      modifies this
      ensures self == this
      ensures material == value && pos == old(pos) && radius == old(radius)
    {
      material := value;
      self := this;
    }

    method WithPos(value: Vec3) returns (self: Sphere)
      modifies this
      ensures self == this
      ensures pos == value && material == old(material) && radius == old(radius)
    {
      pos := value;
      self := this;
    }

    method WithRadius(value: real) returns (self: Sphere)
      modifies this
      ensures self == this
      ensures radius == value && material == old(material) && pos == old(pos)
    {
      radius := value;
      self := this;
    }

    /** `Sphere::intersect` with a miss for D < 0 (see `IntersectAsWritten`).
        From outside (q >= 0) the nearer root -p - sqrt(D) is taken and must be
        ahead of the origin; from inside the farther root -p + sqrt(D), which
        always is. A hit lies on the ray and on the sphere, and its normal is a
        unit vector that does not point along the ray. */
    function Intersect(ray: Ray, sqrt: real -> real): (r: Intersection)
      reads this
      requires IsSqrt(sqrt) && UnitRay(ray) && radius != 0.0
      ensures r.hit <==> r.dist.Finite?
      ensures r.hit ==> r.dist.value > 0.0 && r.local.material == Some(material)
      ensures r.hit ==> r.local.pos == Add(ray.pos, Scale(ray.dir, r.dist.value))
      ensures r.hit ==> NormSquared(Sub(r.local.pos, pos)) == Square(radius) > 0.0
      ensures r.hit ==> r.local.normal == if Q(ray, pos, radius) < 0.0 then Reverse(Unit(Sub(r.local.pos, pos), sqrt))
                                          else Unit(Sub(r.local.pos, pos), sqrt)
      ensures r.hit ==> NormSquared(r.local.normal) == 1.0 && Dot(r.local.normal, ray.dir) <= 0.0
      ensures var (p, q, D) := (P(ray, pos), Q(ray, pos, radius), Disc(ray, pos, radius));
        q >= 0.0 ==> (r.hit <==> D >= 0.0 && -p - sqrt(D) > 0.0) && (r.hit ==> r.dist == Finite(-p - sqrt(D)))
      ensures var (p, q, D) := (P(ray, pos), Q(ray, pos, radius), Disc(ray, pos, radius));
        q < 0.0 ==> r.hit && r.dist == Finite(-p + sqrt(D))
      ensures !r.hit ==> r == NoIntersection()
    {
      var p := P(ray, pos);
      var q := Q(ray, pos, radius);
      var D := Disc(ray, pos, radius);
      if q >= 0.0 then
        if D < 0.0 then NoIntersection()
        else
          var t := -p - sqrt(D);
          if t <= 0.0 then NoIntersection()
          else
            assert sqrt(D) * sqrt(D) == D;
            HitAtFacts(ray, pos, radius, material, sqrt(D), t, false, sqrt);
            HitAt(ray, pos, radius, material, t, false, sqrt)
      else
        SquareNonNegative(p, Square(p));
        assert D > 0.0;
        InsideRoot(p, q, sqrt(D));
        var t := -p + sqrt(D);
        HitAtFacts(ray, pos, radius, material, sqrt(D), t, true, sqrt);
        HitAt(ray, pos, radius, material, t, true, sqrt)
    }

    /** `Sphere::intersect` as written: no branch tests D < 0, so a ray that
        passes outside the sphere takes the root of a negative number. The
        resulting NaN makes `t <= 0` false and the ray is reported as a hit at
        distance NaN. Its position and normal, NaN as well, are zero here. */
    function IntersectAsWritten(ray: Ray, sqrt: real -> real): (r: Intersection)
      reads this
      requires IsSqrt(sqrt) && UnitRay(ray) && radius != 0.0
      ensures Q(ray, pos, radius) >= 0.0 && Disc(ray, pos, radius) < 0.0 ==> r.hit && r.dist == NaN
      ensures Q(ray, pos, radius) < 0.0 || Disc(ray, pos, radius) >= 0.0 ==> r == Intersect(ray, sqrt)
    {
      if Q(ray, pos, radius) >= 0.0 && Disc(ray, pos, radius) < 0.0 then
        Intersection(LocalSurface(BLACK, BLACK, Some(material)), NaN, true)
      else
        Intersect(ray, sqrt)
    }
  }

  /** The hit record both branches return at the root `t`, with y = x + t*dir:
      position `y + centre`, normal `unit(y)` from outside and `-unit(y)` from
      inside. */
  function HitAt(ray: Ray, centre: Vec3, radius: real, material: Material, t: real, inside: bool,
                 sqrt: real -> real): Intersection
    requires IsSqrt(sqrt) && radius != 0.0
    requires NormSquared(Add(Sub(ray.pos, centre), Scale(ray.dir, t))) == Square(radius)
  {
    var y := Add(Sub(ray.pos, centre), Scale(ray.dir, t));
    SquarePositive(radius, Square(radius));
    var n := Unit(y, sqrt);
    Intersection(LocalSurface(Add(y, centre), if inside then Reverse(n) else n, Some(material)), Finite(t), true)
  }

  /** At either root the hit point is on the ray and on the sphere, and the
      normal is a unit vector against the ray: y.dir = p + t is -sqrt(D) at
      the nearer root and +sqrt(D) at the farther one. */
  lemma HitAtFacts(ray: Ray, centre: Vec3, radius: real, material: Material, s: real, t: real,
                   inside: bool, sqrt: real -> real)
    requires IsSqrt(sqrt) && UnitRay(ray) && radius != 0.0
    requires 0.0 <= s && s * s == Disc(ray, centre, radius)
    requires inside ==> t == -P(ray, centre) + s
    requires !inside ==> t == -P(ray, centre) - s
    ensures NormSquared(Add(Sub(ray.pos, centre), Scale(ray.dir, t))) == Square(radius)
    ensures var r := HitAt(ray, centre, radius, material, t, inside, sqrt);
      r.local.pos == Add(ray.pos, Scale(ray.dir, t))
      && NormSquared(Sub(r.local.pos, centre)) == Square(radius)
      && NormSquared(r.local.normal) == 1.0 && Dot(r.local.normal, ray.dir) <= 0.0
    ensures Square(radius) > 0.0
    ensures var r := HitAt(ray, centre, radius, material, t, inside, sqrt);
      r.local.normal == if inside then Reverse(Unit(Sub(r.local.pos, centre), sqrt))
                        else Unit(Sub(r.local.pos, centre), sqrt)
  {
    var y := Add(Sub(ray.pos, centre), Scale(ray.dir, t));
    SphereSurface(ray, centre, radius, s, t);
    SquarePositive(radius, Square(radius));
    UnitSign(y, ray.dir, sqrt);
    var n := Unit(y, sqrt);
    if inside {
      DotReverse(n, ray.dir);
      NormSquaredReverse(n);
    }
  }

  /** p = x.dir with x = ray.pos - centre. */
  function P(ray: Ray, centre: Vec3): real
  {
    Dot(Sub(ray.pos, centre), ray.dir)
  }

  /** q = |x|^2 - R^2: negative exactly when the origin is inside. */
  function Q(ray: Ray, centre: Vec3, radius: real): real
  {
    NormSquared(Sub(ray.pos, centre)) - Square(radius)
  }

  /** The discriminant D = p^2 - q. */
  function Disc(ray: Ray, centre: Vec3, radius: real): real
  {
    Square(P(ray, centre)) - Q(ray, centre, radius)
  }

  /** A root `t` of t^2 + 2pt + q = 0 put along a unit direction lands on the
      sphere, `y.dir` is p + t, and `y + centre` is the ray's point at `t`. */
  lemma SphereSurface(ray: Ray, centre: Vec3, radius: real, s: real, t: real)
    requires UnitRay(ray)
    requires s * s == Disc(ray, centre, radius)
    requires t == -P(ray, centre) - s || t == -P(ray, centre) + s
    ensures var y := Add(Sub(ray.pos, centre), Scale(ray.dir, t));
      NormSquared(y) == Square(radius)
      && Dot(y, ray.dir) == P(ray, centre) + t
      && Add(y, centre) == Add(ray.pos, Scale(ray.dir, t))
      && Sub(Add(y, centre), centre) == y
  {
    var x := Sub(ray.pos, centre);
    var d := ray.dir;
    var y := Add(x, Scale(d, t));
    var p := Dot(x, d);
    assert p == P(ray, centre);
    assert NormSquared(y) == Square(radius) by {
      AlongRay(x, d, t);
      QuadraticRoot(p, Q(ray, centre, radius), s, t);
      RootOnSphere(NormSquared(y), NormSquared(x), p, t, Q(ray, centre, radius), Square(radius));
    }
    assert Dot(y, d) == p + t by {
      AlongRay(x, d, t);
    }
    Recentre(ray.pos, centre, Scale(d, t));
  }

  /** Moving the origin to the centre and back. */
  lemma Recentre(o: Vec3, c: Vec3, w: Vec3)
    ensures Add(Add(Sub(o, c), w), c) == Add(o, w)
    ensures Sub(Add(Add(Sub(o, c), w), c), c) == Add(Sub(o, c), w)
    ensures Sub(Add(o, w), c) == Add(Sub(o, c), w)
  {
    assert forall k :: 0 <= k < 3 ==> Add(Add(Sub(o, c), w), c)[k] == Add(o, w)[k];
    assert forall k :: 0 <= k < 3 ==> Sub(Add(Add(Sub(o, c), w), c), c)[k] == Add(Sub(o, c), w)[k];
    assert forall k :: 0 <= k < 3 ==> Sub(Add(o, w), c)[k] == Add(Sub(o, c), w)[k];
  }

  /** |x + t d|^2 and (x + t d).d for a unit direction d. */
  lemma AlongRay(x: Vec3, d: Vec3, t: real)
    requires NormSquared(d) == 1.0
    ensures NormSquared(Add(x, Scale(d, t))) == NormSquared(x) + 2.0 * t * Dot(x, d) + t * t
    ensures Dot(Add(x, Scale(d, t)), d) == Dot(x, d) + t
  {
    var y := Add(x, Scale(d, t));
    AlongRayComponents(x, d, t);
    NormSquared3(d);
    AlongRayAlgebra(x[0], x[1], x[2], d[0], d[1], d[2], t, y[0], y[1], y[2]);
    NormSquared3(y);
    NormSquared3(x);
    Dot3(x, d);
    Dot3(y, d);
  }

  lemma AlongRayComponents(x: Vec3, d: Vec3, t: real)
    ensures var y := Add(x, Scale(d, t));
      y[0] == x[0] + d[0] * t && y[1] == x[1] + d[1] * t && y[2] == x[2] + d[2] * t
  {
  }

  lemma AlongRayAlgebra(x0: real, x1: real, x2: real, d0: real, d1: real, d2: real, t: real,
                        y0: real, y1: real, y2: real)
    requires SumOfSquares3(d0, d1, d2) == 1.0
    requires y0 == x0 + d0 * t && y1 == x1 + d1 * t && y2 == x2 + d2 * t
    ensures SumOfSquares3(y0, y1, y2)
         == SumOfSquares3(x0, x1, x2) + 2.0 * t * (x0 * d0 + x1 * d1 + x2 * d2) + t * t
    ensures y0 * d0 + y1 * d1 + y2 * d2 == x0 * d0 + x1 * d1 + x2 * d2 + t
  {
    assert y0 * y0 == x0 * x0 + 2.0 * t * (x0 * d0) + t * t * (d0 * d0);
    assert y1 * y1 == x1 * x1 + 2.0 * t * (x1 * d1) + t * t * (d1 * d1);
    assert y2 * y2 == x2 * x2 + 2.0 * t * (x2 * d2) + t * t * (d2 * d2);
    assert y0 * d0 + y1 * d1 + y2 * d2 == x0 * d0 + x1 * d1 + x2 * d2 + t * SumOfSquares3(d0, d1, d2);
  }

  /** -p -+ s with s^2 = p^2 - q solves t^2 + 2pt + q = 0. */
  lemma QuadraticRoot(p: real, q: real, s: real, t: real)
    requires s * s == Square(p) - q
    requires t == -p - s || t == -p + s
    ensures t * t + 2.0 * t * p + q == 0.0
  {
    assert (t + p) * (t + p) == s * s;
  }

  /** |y|^2 = |x|^2 + 2tp + t^2 with t a root is |x|^2 - q = R^2. */
  lemma RootOnSphere(ny: real, nx: real, p: real, t: real, q: real, rr: real)
    requires ny == nx + 2.0 * t * p + t * t
    requires t * t + 2.0 * t * p + q == 0.0
    requires q == nx - rr
    ensures ny == rr
  {
  }

  /** From inside (q < 0) the farther root is ahead of the origin: D > p^2, so
      sqrt(D) > |p|. */
  lemma InsideRoot(p: real, q: real, s: real)
    requires q < 0.0 && 0.0 <= s && s * s == Square(p) - q
    ensures -p + s > 0.0
  {
    if p >= 0.0 && s <= p {
      var ss := s * s;
      var ps := p * s;
      var pp := p * p;
      if s == 0.0 {
        MulNonNegative(p, p);
      } else {
        MulLessEq(s, s, p, ss, ps);
        MulLessEq(p, s, p, ps, pp);
      }
    }
  }

  /** Scaling by the positive reciprocal of the norm keeps the sign of a dot
      product. */
  lemma UnitSign(y: Vec3, d: Vec3, sqrt: real -> real)
    requires IsSqrt(sqrt) && NormSquared(y) != 0.0
    ensures Dot(y, d) <= 0.0 ==> Dot(Unit(y, sqrt), d) <= 0.0
    ensures Dot(y, d) >= 0.0 ==> Dot(Unit(y, sqrt), d) >= 0.0
  {
    NormSquaredNonNegative(y);
    var n := Norm(y, sqrt);
    assert n != 0.0 && n >= 0.0;
    var k := 1.0 / n;
    DotScale(y, d, k);
    var v := Dot(y, d);
    if v <= 0.0 {
      MulNonNegative(k, -v);
    } else {
      MulNonNegative(k, v);
    }
  }

  lemma NormSquaredReverse(a: Vec)
    ensures NormSquared(Reverse(a)) == NormSquared(a)
  {
    DotReverse(a, Reverse(a));
    DotSymmetric(a, Reverse(a));
    DotReverse(a, a);
  }

  /** The root `Intersect` reports as `dist` is the first parameter at which
      the ray reaches the sphere: from outside every earlier point of the ray
      is outside, from inside every earlier point is inside. */
  lemma RootIsNearest(ray: Ray, centre: Vec3, radius: real, s: real, t: real, u: real)
    requires UnitRay(ray)
    requires 0.0 <= s && s * s == Disc(ray, centre, radius)
    requires Q(ray, centre, radius) >= 0.0 ==> t == -P(ray, centre) - s
    requires Q(ray, centre, radius) < 0.0 ==> t == -P(ray, centre) + s
    requires 0.0 <= u < t
    ensures var y := Sub(Add(ray.pos, Scale(ray.dir, u)), centre);
      (Q(ray, centre, radius) >= 0.0 ==> NormSquared(y) > Square(radius))
      && (Q(ray, centre, radius) < 0.0 ==> NormSquared(y) < Square(radius))
  {
    var x := Sub(ray.pos, centre);
    var d := ray.dir;
    var p := Dot(x, d);
    assert p == P(ray, centre);
    var q := Q(ray, centre, radius);
    var y := Sub(Add(ray.pos, Scale(d, u)), centre);
    Recentre(ray.pos, centre, Scale(d, u));
    var v := u * u + 2.0 * u * p + q;
    assert NormSquared(y) - Square(radius) == v by {
      AlongRay(x, d, u);
    }
    if q >= 0.0 {
      BeforeNearerRoot(p, q, s, u, v);
    } else {
      BeforeFartherRoot(p, q, s, u, v);
    }
  }

  /** Before the nearer root -p - s the quadratic u^2 + 2pu + q is positive. */
  lemma BeforeNearerRoot(p: real, q: real, s: real, u: real, v: real)
    requires 0.0 <= s && s * s == Square(p) - q
    requires u < -p - s
    requires v == u * u + 2.0 * u * p + q
    ensures v > 0.0
  {
    var a := -p - s - u;
    var b := -p + s - u;
    assert v == a * b by {
      assert a * b == (u + p) * (u + p) - s * s;
    }
    MulLess(a, 0.0, b, 0.0, a * b);
  }

  /** With q < 0 the nearer root is behind the origin, so from 0 up to the
      farther root -p + s the quadratic is negative. */
  lemma BeforeFartherRoot(p: real, q: real, s: real, u: real, v: real)
    requires q < 0.0 && 0.0 <= s && s * s == Square(p) - q
    requires 0.0 <= u < -p + s
    requires v == u * u + 2.0 * u * p + q
    ensures v < 0.0
  {
    InsideRoot(-p, q, s);
    var a := u + p + s;
    var b := -p + s - u;
    assert v == -(a * b) by {
      assert a * b == s * s - (u + p) * (u + p);
    }
    MulLess(a, 0.0, b, 0.0, a * b);
  }

  /** A unit sphere at the origin and a ray that passes it at distance 2:
      as written the sphere reports a hit at distance NaN; with the D < 0
      test it reports a miss. */
  lemma SphereMissReportedAsHit(sph: Sphere, sqrt: real -> real)
    requires IsSqrt(sqrt)
    requires sph.pos == [0.0, 0.0, 0.0] && sph.radius == 1.0
    ensures var ray := Ray([2.0, 0.0, 0.0], [0.0, 0.0, 1.0]);
      UnitRay(ray)
      && sph.IntersectAsWritten(ray, sqrt).hit && sph.IntersectAsWritten(ray, sqrt).dist == NaN
      && !sph.Intersect(ray, sqrt).hit
  {
    var ray := Ray([2.0, 0.0, 0.0], [0.0, 0.0, 1.0]);
    Dot3(ray.dir, ray.dir);
    var x := Sub(ray.pos, sph.pos);
    assert x == [2.0, 0.0, 0.0];
    Dot3(x, ray.dir);
    Dot3(x, x);
    assert P(ray, sph.pos) == 0.0;
    assert Q(ray, sph.pos, sph.radius) == 3.0;
    assert Disc(ray, sph.pos, sph.radius) == -3.0;
  }
}
