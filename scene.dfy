/** The older scene representation (src/shapes/core.hpp): a `Hit` record, a
    `Shape` whose base `intersect` reports the default miss, and a `Scene`
    that keeps the nearest of its members' hits. The bodies of the legacy
    `Plane` and `Sphere` declared there are not part of this model, so a
    derived shape is its `intersect` function. */
module LegacyScene {
  import opened Floats
  import opened Vectors

  datatype Ray = Ray(pos: Vec3, dir: Vec3)

  datatype Hit = Hit(pos: Vec3, normal: Vec3, dist: Ext, hit: bool)

  /** The member initialisers of `Hit`: zero vectors, INFINITY, no hit. */
  function DefaultHit(): (h: Hit)
    ensures h.pos == [0.0, 0.0, 0.0] && h.normal == [0.0, 0.0, 0.0]
    ensures h.dist == Infinity && !h.hit
  {
    Hit(Splat3(0.0), Splat3(0.0), Infinity, false)
  }

  function HitDist(h: Hit): Ext
  {
    h.dist
  }

  /** A member of a scene: the base `Shape`, or a derived shape given by its
      `intersect` override. */
  datatype Shape = BaseShape | Derived(intersect: Ray -> Hit)

  /** Virtual dispatch of `intersect`; the base returns `{}`. */
  function ShapeIntersect(s: Shape, ray: Ray): (h: Hit)
    ensures s.BaseShape? ==> h == DefaultHit()
    ensures s.Derived? ==> h == s.intersect(ray)
  {
    match s
    case BaseShape => DefaultHit()
    case Derived(f) => f(ray)
  }

  /** The members' hits, in scene order. */
  function Hits(shapes: seq<Shape>, ray: Ray): (hs: seq<Hit>)
    ensures |hs| == |shapes|
    ensures forall k :: 0 <= k < |shapes| ==> hs[k] == ShapeIntersect(shapes[k], ray)
  {
    seq(|shapes|, k requires 0 <= k < |shapes| => ShapeIntersect(shapes[k], ray))
  }

  class Scene {
    var data: seq<Shape>

    constructor(data: seq<Shape>)
      ensures this.data == data
    {
      this.data := data;
    }

    /** `Scene::intersect`: start from the default `Hit` and replace it by
        each member's hit that is strictly nearer (`nearest.dist > hit.dist`). */
    method Intersect(ray: Ray) returns (r: Hit)
      ensures r == Nearest(DefaultHit(), HitDist, Hits(data, ray))
    {
      var nearest := DefaultHit();
      ghost var hs := Hits(data, ray);
      var i := 0;
      while i < |data|
        invariant 0 <= i <= |data|
        invariant nearest == Nearest(DefaultHit(), HitDist, hs[..i])
      {
        var hit := ShapeIntersect(data[i], ray);
        assert hs[..i + 1][..i] == hs[..i];
        if Less(hit.dist, nearest.dist) {
          nearest := hit;
        }
        i := i + 1;
      }
      assert hs[..|data|] == hs;
      r := nearest;
    }
  }

  /** The scene's hit is never NaN, and no member's hit with a distance that
      is not NaN is strictly nearer. */
  lemma SceneIsNearest(shapes: seq<Shape>, ray: Ray)
    ensures !Nearest(DefaultHit(), HitDist, Hits(shapes, ray)).dist.NaN?
    ensures forall k :: 0 <= k < |shapes| && !ShapeIntersect(shapes[k], ray).dist.NaN? ==>
              LessEq(Nearest(DefaultHit(), HitDist, Hits(shapes, ray)).dist, ShapeIntersect(shapes[k], ray).dist)
  {
    NearestIsMinimal(DefaultHit(), HitDist, Hits(shapes, ray));
  }

  /** The scene's hit is the default or exactly one member's hit; every member
      before that one is strictly farther or NaN, so the first of equally near
      members wins. */
  lemma SceneSource(shapes: seq<Shape>, ray: Ray) returns (k: int)
    ensures -1 <= k < |shapes|
    ensures k == -1 ==> Nearest(DefaultHit(), HitDist, Hits(shapes, ray)) == DefaultHit()
    ensures 0 <= k ==> Nearest(DefaultHit(), HitDist, Hits(shapes, ray)) == ShapeIntersect(shapes[k], ray)
    ensures 0 <= k ==> forall j :: 0 <= j < k ==>
              Less(ShapeIntersect(shapes[k], ray).dist, ShapeIntersect(shapes[j], ray).dist) ||
              ShapeIntersect(shapes[j], ray).dist.NaN?
  {
    k := NearestSource(DefaultHit(), HitDist, Hits(shapes, ray));
  }

  /** An empty scene, and a scene of base shapes only, report the default. */
  lemma {:induction false} BaseShapesMiss(shapes: seq<Shape>, ray: Ray)
    requires forall k :: 0 <= k < |shapes| ==> shapes[k].BaseShape?
    ensures Nearest(DefaultHit(), HitDist, Hits(shapes, ray)) == DefaultHit()
  {
    var hs := Hits(shapes, ray);
    if |shapes| > 0 {
      var n := |shapes| - 1;
      assert Hits(shapes[..n], ray) == hs[..n];
      BaseShapesMiss(shapes[..n], ray);
    }
  }
}
