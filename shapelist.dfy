/** `ShapeList::intersect` (src/shapes/shapelist.cpp): the nearest of the
    members' intersections, in member order, with a strict `<` so that the
    earliest member wins a tie. A member whose `intersect` is the base
    `Shape::intersect` throws, and the exception leaves the loop. A list is a
    `Shape` itself, so a member may be a list. */
module ShapeCollections {
  import opened Wrappers
  import opened Floats
  import opened Vectors
  import opened Core
  import opened ShapePlane
  import opened ShapeDisc
  import opened ShapeDiamond
  import opened ShapeSphere

  /** A member of a `ShapeList`: one of the four shapes, a nested list (held
      by its members), or a `Shape` that does not override `intersect`. */
  datatype Member =
    | PlaneMember(plane: Plane)
    | DiscMember(disc: Disc)
    | DiamondMember(diamond: Diamond)
    | SphereMember(sphere: Sphere)
    | ListMember(members: seq<Member>)
    | BaseMember

  function Footprint(m: Member): set<object>
    decreases m
  {
    match m
    case PlaneMember(p) => {p}
    case DiscMember(d) => {d}
    case DiamondMember(d) => {d}
    case SphereMember(s) => {s}
    case ListMember(ms) => Footprints(ms)
    case BaseMember => {}
  }

  function Footprints(ms: seq<Member>): set<object>
    decreases ms
  {
    set k, o | 0 <= k < |ms| && o in Footprint(ms[k]) :: o
  }

  /** What `Sphere.Intersect` assumes of every sphere in `m`: a unit ray and a
      non-zero radius. */
  ghost predicate Ready(m: Member, ray: Ray)
    reads Footprint(m)
    decreases m
  {
    match m
    case SphereMember(s) => UnitRay(ray) && s.radius != 0.0
    case ListMember(ms) => AllReady(ms, ray)
    case _ => true
  }

  ghost predicate AllReady(ms: seq<Member>, ray: Ray)
    reads Footprints(ms)
    decreases ms
  {
    forall k :: 0 <= k < |ms| ==> Ready(ms[k], ray)
  }

  /** `m` is a base `Shape` or a list with such a member, at any depth. */
  ghost predicate Throws(m: Member)
    decreases m
  {
    match m
    case BaseMember => true
    case ListMember(ms) => exists k :: 0 <= k < |ms| && Throws(ms[k])
    case _ => false
  }

  const NOT_IMPLEMENTED: LogicError := BaseIntersect(Ray(Splat3(0.0), Splat3(0.0))).error

  /** What every shape promises of the intersection it returns: a hit is at
      a finite positive distance, and a miss is the default intersection. */
  predicate Consistent(h: Intersection)
  {
    (h.hit <==> h.dist.Finite?) && (h.hit ==> h.dist.value > 0.0) && (!h.hit ==> h == NoIntersection())
  }

  function Dist(h: Intersection): Ext
  {
    h.dist
  }

  function IsHit(h: Intersection): bool
  {
    h.hit
  }

  // ---------------------------------------------------------------------
  // The virtual call `shape->intersect(ray)` and the list's loop

  function MemberIntersect(m: Member, ray: Ray, sqrt: real -> real): (r: Result<Intersection, LogicError>)
    reads Footprint(m)
    requires IsSqrt(sqrt) && Ready(m, ray)
    ensures r.Err? <==> Throws(m)
    ensures r.Err? ==> r.error == NOT_IMPLEMENTED
    ensures r.Ok? ==> Consistent(r.value)
    decreases m, 3
  {
    match m
    case PlaneMember(p) => Ok(p.Intersect(ray))
    case DiscMember(d) => Ok(d.Intersect(ray))
    case DiamondMember(d) => Ok(d.Intersect(ray, sqrt))
    case SphereMember(s) => Ok(s.Intersect(ray, sqrt))
    case ListMember(ms) => ListIntersect(ms, ray, sqrt)
    case BaseMember => BaseIntersect(ray)
  }

  /** What each member's `intersect` returns or throws, in member order. */
  function Outcomes(ms: seq<Member>, ray: Ray, sqrt: real -> real): (r: seq<Result<Intersection, LogicError>>)
    reads Footprints(ms)
    requires IsSqrt(sqrt) && AllReady(ms, ray)
    ensures |r| == |ms|
    decreases ms, 0
  {
    if |ms| == 0 then []
    else
      assert forall k :: 1 <= k < |ms| ==> ms[1..][k - 1] == ms[k];
      [MemberIntersect(ms[0], ray, sqrt)] + Outcomes(ms[1..], ray, sqrt)
  }

  /** An outcome is an exception exactly when its member throws, and then
      it is the base class's error. */
  lemma {:induction false} OutcomesThrow(ms: seq<Member>, ray: Ray, sqrt: real -> real)
    requires IsSqrt(sqrt) && AllReady(ms, ray)
    ensures forall k :: 0 <= k < |ms| ==> (Outcomes(ms, ray, sqrt)[k].Err? <==> Throws(ms[k]))
    ensures forall k :: 0 <= k < |ms| && Outcomes(ms, ray, sqrt)[k].Err? ==>
              Outcomes(ms, ray, sqrt)[k].error == NOT_IMPLEMENTED
    decreases ms, 1
  {
    if |ms| > 0 {
      assert forall k :: 1 <= k < |ms| ==> ms[1..][k - 1] == ms[k];
      OutcomesThrow(ms[1..], ray, sqrt);
    }
  }

  /** Every intersection among the outcomes is consistent. */
  lemma {:induction false} OutcomesConsistent(ms: seq<Member>, ray: Ray, sqrt: real -> real)
    requires IsSqrt(sqrt) && AllReady(ms, ray)
    ensures forall k :: 0 <= k < |ms| && Outcomes(ms, ray, sqrt)[k].Ok? ==> Consistent(Outcomes(ms, ray, sqrt)[k].value)
    decreases ms, 1
  {
    if |ms| > 0 {
      assert forall k :: 1 <= k < |ms| ==> ms[1..][k - 1] == ms[k];
      OutcomesConsistent(ms[1..], ray, sqrt);
    }
  }

  /** `ShapeList::intersect`: the first exception, or the nearest result. */
  function ListIntersect(ms: seq<Member>, ray: Ray, sqrt: real -> real): (r: Result<Intersection, LogicError>)
    reads Footprints(ms)
    requires IsSqrt(sqrt) && AllReady(ms, ray)
    ensures r.Err? <==> exists k :: 0 <= k < |ms| && Throws(ms[k])
    ensures r.Err? ==> r.error == NOT_IMPLEMENTED
    ensures r.Ok? ==> Consistent(r.value)
    decreases ms, 2
  {
    var outs := Outcomes(ms, ray, sqrt);
    OutcomesThrow(ms, ray, sqrt);
    OutcomesConsistent(ms, ray, sqrt);
    match Collect(outs)
    case Err(e) =>
      Err(e)
    case Ok(hs) =>
      NearestKeepsConsistent(hs);
      Ok(Nearest(NoIntersection(), Dist, hs))
  }

  /** The loop's results in order, or the first exception, which ends it. */
  function Collect<T, E>(outs: seq<Result<T, E>>): (r: Result<seq<T>, E>)
    ensures r.Ok? <==> forall k :: 0 <= k < |outs| ==> outs[k].Ok?
    ensures r.Ok? ==> |r.value| == |outs| && forall k :: 0 <= k < |outs| ==> outs[k] == Ok(r.value[k])
    ensures r.Err? ==> exists k :: 0 <= k < |outs| && outs[k] == Err(r.error) &&
                                   forall j :: 0 <= j < k ==> outs[j].Ok?
  {
    if |outs| == 0 then Ok([])
    else if outs[0].Err? then Err(outs[0].error)
    else
      var tail := Collect(outs[1..]);
      assert forall k :: 1 <= k < |outs| ==> outs[k] == outs[1..][k - 1];
      if tail.Err? then
        assert exists k :: 0 <= k < |outs| && outs[k] == Err(tail.error) && forall j :: 0 <= j < k ==> outs[j].Ok? by {
          var k :| 0 <= k < |outs[1..]| && outs[1..][k] == Err(tail.error) && forall j :: 0 <= j < k ==> outs[1..][j].Ok?;
          assert outs[k + 1] == Err(tail.error);
        }
        Err(tail.error)
      else Ok([outs[0].value] + tail.value)
  }

  /** An exception at `i` after results only is the one `Collect` reports. */
  lemma CollectFirstError<T, E>(outs: seq<Result<T, E>>, i: int)
    requires 0 <= i < |outs| && outs[i].Err? && forall j :: 0 <= j < i ==> outs[j].Ok?
    ensures Collect(outs) == Err(outs[i].error)
  {
    var k :| 0 <= k < |outs| && outs[k] == Err(Collect(outs).error) && forall j :: 0 <= j < k ==> outs[j].Ok?;
    assert k == i;
  }

  /** Results only are collected as they are. */
  lemma CollectAllOk<T, E>(outs: seq<Result<T, E>>, vs: seq<T>)
    requires |vs| == |outs| && forall k :: 0 <= k < |outs| ==> outs[k] == Ok(vs[k])
    ensures Collect(outs) == Ok(vs)
  {
    assert Collect(outs).value == vs;
  }

  /** The nearest of consistent intersections, starting from the default
      miss, is consistent. */
  lemma NearestKeepsConsistent(hs: seq<Intersection>)
    requires forall k :: 0 <= k < |hs| ==> Consistent(hs[k])
    ensures Consistent(Nearest(NoIntersection(), Dist, hs))
  {
    var k := NearestSource(NoIntersection(), Dist, hs);
  }

  /** The `k`-th outcome is the `k`-th member's `intersect`. */
  lemma {:induction false} OutcomeAt(ms: seq<Member>, ray: Ray, sqrt: real -> real, k: int)
    requires IsSqrt(sqrt) && AllReady(ms, ray) && 0 <= k < |ms|
    ensures Outcomes(ms, ray, sqrt)[k] == MemberIntersect(ms[k], ray, sqrt)
    decreases k
  {
    if k > 0 {
      assert forall j :: 0 <= j < |ms[1..]| ==> ms[1..][j] == ms[j + 1];
      OutcomeAt(ms[1..], ray, sqrt, k - 1);
    }
  }

  class ShapeList {
    var data: seq<Member>
    /** The objects the members are made of, at every depth. */
    ghost var Repr: set<object>

    ghost predicate Valid()
      reads this
    {
      Footprints(data) <= Repr
    }

    /** The class declaration that goes with shapelist.cpp is not part of this
        model; the constructor takes the members. */
    constructor(data: seq<Member>)
      ensures this.data == data && Valid()
    {
      this.data := data;
      Repr := Footprints(data);
    }

    /** `ShapeList::intersect`. */
    method Intersect(ray: Ray, sqrt: real -> real) returns (r: Result<Intersection, LogicError>)
      requires Valid() && IsSqrt(sqrt) && AllReady(data, ray)
      ensures r == ListIntersect(data, ray, sqrt)
    {
      var nearest := NoIntersection();
      ghost var done: seq<Intersection> := [];
      var i := 0;
      while i < |data|
        invariant 0 <= i <= |data| && |done| == i
        invariant forall k :: 0 <= k < i ==> Outcomes(data, ray, sqrt)[k] == Ok(done[k])
        invariant nearest == Nearest(NoIntersection(), Dist, done)
      {
        var current := CallIntersect(i, ray, sqrt);
        if current.Err? {
          CollectFirstError(Outcomes(data, ray, sqrt), i);
          return Err(current.error);
        }
        assert (done + [current.value])[..i] == done;
        if Less(current.value.dist, nearest.dist) {
          nearest := current.value;
        }
        done := done + [current.value];
        i := i + 1;
      }
      CollectAllOk(Outcomes(data, ray, sqrt), done);
      r := Ok(nearest);
    }

    /** The virtual call `data[i]->intersect(ray)`. */
    method CallIntersect(i: int, ray: Ray, sqrt: real -> real) returns (r: Result<Intersection, LogicError>)
      requires Valid() && IsSqrt(sqrt) && AllReady(data, ray) && 0 <= i < |data|
      ensures r == Outcomes(data, ray, sqrt)[i]
    {
      r := MemberIntersect(data[i], ray, sqrt);
      OutcomeAt(data, ray, sqrt, i);
    }
  }

  // ---------------------------------------------------------------------
  // What the list promises

  /** An empty list returns the default miss at INFINITY. */
  lemma EmptyListMisses(ray: Ray, sqrt: real -> real)
    requires IsSqrt(sqrt)
    ensures ListIntersect([], ray, sqrt) == Ok(NoIntersection())
  {
  }

  /** The result is no farther than any member's intersection. */
  lemma ListIsNearest(ms: seq<Member>, ray: Ray, sqrt: real -> real)
    requires IsSqrt(sqrt) && AllReady(ms, ray)
    requires ListIntersect(ms, ray, sqrt).Ok?
    ensures forall k :: 0 <= k < |ms| ==>
              LessEq(ListIntersect(ms, ray, sqrt).value.dist, Outcomes(ms, ray, sqrt)[k].value.dist)
  {
    var outs := Outcomes(ms, ray, sqrt);
    OutcomesConsistent(ms, ray, sqrt);
    var hs := Collect(outs).value;
    assert forall j :: 0 <= j < |ms| ==> outs[j] == Ok(hs[j]) && Consistent(hs[j]);
    NearestIsMinimal(NoIntersection(), Dist, hs);
  }

  /** The result is the default miss, or exactly the outcome of one member
      `k`, and every member before `k` is strictly farther: the earliest
      member wins a tie. */
  lemma ListSource(ms: seq<Member>, ray: Ray, sqrt: real -> real) returns (k: int)
    requires IsSqrt(sqrt) && AllReady(ms, ray)
    requires ListIntersect(ms, ray, sqrt).Ok?
    ensures -1 <= k < |ms|
    ensures k == -1 ==> ListIntersect(ms, ray, sqrt) == Ok(NoIntersection())
    ensures 0 <= k ==> ListIntersect(ms, ray, sqrt) == Outcomes(ms, ray, sqrt)[k]
    ensures 0 <= k ==> forall j :: 0 <= j < k ==>
              Less(Outcomes(ms, ray, sqrt)[k].value.dist, Outcomes(ms, ray, sqrt)[j].value.dist)
  {
    var outs := Outcomes(ms, ray, sqrt);
    OutcomesConsistent(ms, ray, sqrt);
    var hs := Collect(outs).value;
    assert forall j :: 0 <= j < |ms| ==> outs[j] == Ok(hs[j]) && Consistent(hs[j]);
    k := NearestSource(NoIntersection(), Dist, hs);
  }

  /** Members that miss are at INFINITY and are never chosen, so the list
      hits exactly when some member hits. */
  lemma {:induction false} ListHitsIffSomeMemberHits(ms: seq<Member>, ray: Ray, sqrt: real -> real)
    requires IsSqrt(sqrt) && AllReady(ms, ray)
    requires ListIntersect(ms, ray, sqrt).Ok?
    ensures ListIntersect(ms, ray, sqrt).value.hit <==> SomeHit(Outcomes(ms, ray, sqrt))
  {
    var outs := Outcomes(ms, ray, sqrt);
    OutcomesConsistent(ms, ray, sqrt);
    var hs := Collect(outs).value;
    assert forall j :: 0 <= j < |ms| ==> outs[j] == Ok(hs[j]) && Consistent(hs[j]);
    NearestHitsIffSome(NoIntersection(), Dist, IsHit, hs);
    var n := Nearest(NoIntersection(), Dist, hs);
    assert ListIntersect(ms, ray, sqrt) == Ok(n);
    if n.hit {
      var j :| 0 <= j < |hs| && IsHit(hs[j]);
      assert outs[j].value.hit;
    } else {
      assert forall k :: 0 <= k < |ms| ==> !IsHit(hs[k]);
      assert forall k :: 0 <= k < |ms| ==> !outs[k].value.hit;
    }
  }

  /** Some member's `intersect` returns a hit. */
  ghost predicate SomeHit(outs: seq<Result<Intersection, LogicError>>)
  {
    exists k :: 0 <= k < |outs| && outs[k].Ok? && outs[k].value.hit
  }

  // ---------------------------------------------------------------------
  // The sphere as written, inside a list

  /** The virtual call with every sphere as its source is written. */
  function MemberIntersectAsWritten(m: Member, ray: Ray, sqrt: real -> real): (r: Result<Intersection, LogicError>)
    reads Footprint(m)
    requires IsSqrt(sqrt) && Ready(m, ray)
    decreases m, 2
  {
    match m
    case SphereMember(s) => Ok(s.IntersectAsWritten(ray, sqrt))
    case ListMember(ms) => ListIntersectAsWritten(ms, ray, sqrt)
    case _ => MemberIntersect(m, ray, sqrt)
  }

  function OutcomesAsWritten(ms: seq<Member>, ray: Ray, sqrt: real -> real): (r: seq<Result<Intersection, LogicError>>)
    reads Footprints(ms)
    requires IsSqrt(sqrt) && AllReady(ms, ray)
    ensures |r| == |ms|
    decreases ms, 0
  {
    if |ms| == 0 then []
    else
      assert forall k :: 1 <= k < |ms| ==> ms[1..][k - 1] == ms[k];
      [MemberIntersectAsWritten(ms[0], ray, sqrt)] + OutcomesAsWritten(ms[1..], ray, sqrt)
  }

  function ListIntersectAsWritten(ms: seq<Member>, ray: Ray, sqrt: real -> real): (r: Result<Intersection, LogicError>)
    reads Footprints(ms)
    requires IsSqrt(sqrt) && AllReady(ms, ray)
    decreases ms, 1
  {
    match Collect(OutcomesAsWritten(ms, ray, sqrt))
    case Err(e) => Err(e)
    case Ok(hs) => Ok(Nearest(NoIntersection(), Dist, hs))
  }

  /** A distance the strict `<` never prefers to INFINITY. */
  predicate Far(h: Intersection)
  {
    h.dist.NaN? || h.dist.Infinity?
  }

  /** Two outcomes the nearest-hit loop cannot tell apart. */
  predicate Equivalent(a: Result<Intersection, LogicError>, b: Result<Intersection, LogicError>)
  {
    a == b || (a.Ok? && b.Ok? && Far(a.value) && Far(b.value))
  }

  /** A sphere as written differs from the corrected one only by a NaN
      distance where the corrected one misses; a list is unaffected. */
  lemma MemberAsWrittenEquivalent(m: Member, ray: Ray, sqrt: real -> real)
    requires IsSqrt(sqrt) && Ready(m, ray)
    ensures Equivalent(MemberIntersectAsWritten(m, ray, sqrt), MemberIntersect(m, ray, sqrt))
    ensures !m.SphereMember? ==> MemberIntersectAsWritten(m, ray, sqrt) == MemberIntersect(m, ray, sqrt)
    decreases m, 2
  {
    match m
    case ListMember(ms) =>
      ListHidesSphereNaN(ms, ray, sqrt);
    case _ =>
  }

  lemma {:induction false} OutcomesAsWrittenEquivalent(ms: seq<Member>, ray: Ray, sqrt: real -> real)
    requires IsSqrt(sqrt) && AllReady(ms, ray)
    ensures forall k :: 0 <= k < |ms| ==> Equivalent(OutcomesAsWritten(ms, ray, sqrt)[k], Outcomes(ms, ray, sqrt)[k])
    decreases ms, 0
  {
    if |ms| > 0 {
      assert forall k :: 1 <= k < |ms| ==> ms[1..][k - 1] == ms[k];
      MemberAsWrittenEquivalent(ms[0], ray, sqrt);
      OutcomesAsWrittenEquivalent(ms[1..], ray, sqrt);
    }
  }

  /** The sphere's NaN "hit" never wins the strict `<` against INFINITY or a
      real distance, so a list gives the same result with the sphere as
      written as with the corrected sphere. */
  lemma ListHidesSphereNaN(ms: seq<Member>, ray: Ray, sqrt: real -> real)
    requires IsSqrt(sqrt) && AllReady(ms, ray)
    ensures ListIntersectAsWritten(ms, ray, sqrt) == ListIntersect(ms, ray, sqrt)
    decreases ms, 1
  {
    var outs := Outcomes(ms, ray, sqrt);
    var outs' := OutcomesAsWritten(ms, ray, sqrt);
    OutcomesAsWrittenEquivalent(ms, ray, sqrt);
    var c := Collect(outs);
    var c' := Collect(outs');
    assert c.Ok? <==> c'.Ok?;
    if c.Ok? {
      forall j | 0 <= j < |ms|
        ensures c.value[j] == c'.value[j] || (Far(c.value[j]) && Far(c'.value[j]))
      {
        assert outs[j] == Ok(c.value[j]) && outs'[j] == Ok(c'.value[j]);
      }
      NearestIgnoresFarMembers(NoIntersection(), Dist, c.value, c'.value);
    } else {
      var k :| 0 <= k < |outs| && outs[k] == Err(c.error) && forall j :: 0 <= j < k ==> outs[j].Ok?;
      assert outs'[k] == outs[k];
      CollectFirstError(outs', k);
    }
  }
}
