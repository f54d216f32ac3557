/** The generic vector algebra of `ImplVector` and its `Vector2`/`Vector3`
    instances (src/math/vector.hpp). A vector is the sequence of its
    components; `Color` is a 3-vector as well. Compound assignments, `dot`,
    `reverse` and `normalize` loop over the components in the source and are
    methods with loops here; the other operations are functions. */
module Vectors {
  import opened Floats

  type Vec = seq<real>
  type Vec2 = v: Vec | |v| == 2 witness [0.0, 0.0]
  type Vec3 = v: Vec | |v| == 3 witness [0.0, 0.0, 0.0]

  /** `sqrt` is not defined here: callers pass a function and this predicate
      says it returns the non-negative root of every non-negative argument. */
  ghost predicate IsSqrt(sqrt: real -> real)
  {
    forall x :: 0.0 <= x ==> 0.0 <= sqrt(x) && sqrt(x) * sqrt(x) == x
  }

  /** The non-negative root is unique. */
  lemma SqrtOfSquare(sqrt: real -> real, x: real, r: real)
    requires IsSqrt(sqrt)
    requires 0.0 <= r && x == r * r
    ensures sqrt(x) == r
  {
    MulNonNegative(r, r);
    SquareRootUnique(sqrt(x), r);
  }

  function Add(a: Vec, b: Vec): (r: Vec)
    requires |a| == |b|
    ensures |r| == |a|
  {
    seq(|a|, i requires 0 <= i < |a| => a[i] + b[i])
  }

  function Sub(a: Vec, b: Vec): (r: Vec)
    requires |a| == |b|
    ensures |r| == |a|
  {
    seq(|a|, i requires 0 <= i < |a| => a[i] - b[i])
  }

  /** Component-wise product (the colour product `BSDF_prod * emission`). */
  function Mul(a: Vec, b: Vec): (r: Vec)
    requires |a| == |b|
    ensures |r| == |a|
  {
    seq(|a|, i requires 0 <= i < |a| => a[i] * b[i])
  }

  function AddScalar(a: Vec, s: real): (r: Vec)
    ensures |r| == |a|
  {
    seq(|a|, i requires 0 <= i < |a| => a[i] + s)
  }

  function SubScalar(a: Vec, s: real): (r: Vec)
    ensures |r| == |a|
  {
    seq(|a|, i requires 0 <= i < |a| => a[i] - s)
  }

  /** `v * s` and `s * v`. */
  function Scale(a: Vec, s: real): (r: Vec)
    ensures |r| == |a|
  {
    seq(|a|, i requires 0 <= i < |a| => a[i] * s)
  }

  /** `v / s`; division by zero is left out with the rest of IEEE-754. */
  function DivScalar(a: Vec, s: real): (r: Vec)
    requires s != 0.0
    ensures |r| == |a|
  {
    seq(|a|, i requires 0 <= i < |a| => a[i] / s)
  }

  /** `reverse()` and unary minus. */
  function Reverse(a: Vec): (r: Vec)
    ensures |r| == |a|
  {
    seq(|a|, i requires 0 <= i < |a| => -a[i])
  }

  function Splat3(value: real): Vec3
  {
    [value, value, value]
  }

  /** `dot`: the sum of the component products, accumulated from index 0. */
  function Dot(a: Vec, b: Vec): real
    requires |a| == |b|
  {
    if |a| == 0 then 0.0
    else Dot(a[..|a| - 1], b[..|a| - 1]) + a[|a| - 1] * b[|a| - 1]
  }

  function NormSquared(a: Vec): real
  {
    Dot(a, a)
  }

  function Norm(a: Vec, sqrt: real -> real): real
    requires IsSqrt(sqrt)
  {
    NormSquaredNonNegative(a);
    sqrt(NormSquared(a))
  }

  /** `unit()`: the vector scaled by the reciprocal of its norm, so a unit
      vector that scaled back by the norm is `a` again. The zero vector
      divides by zero in the source and is excluded. */
  function Unit(a: Vec, sqrt: real -> real): (r: Vec)
    requires IsSqrt(sqrt)
    requires NormSquared(a) != 0.0
    ensures |r| == |a|
    ensures NormSquared(r) == 1.0
    ensures 0.0 < Norm(a, sqrt) && Scale(r, Norm(a, sqrt)) == a
  {
    NormSquaredNonNegative(a);
    var n := Norm(a, sqrt);
    NormSquaredScaleUnit(a, n);
    ScaleUndone(a, n);
    Scale(a, 1.0 / n)
  }

  /** `v.project(c)` is `c * c.dot(v)`. */
  function Project(v: Vec, component: Vec): (r: Vec)
    requires |v| == |component|
    ensures |r| == |v|
  {
    Scale(component, Dot(component, v))
  }

  /** `v.facing(d)`: `v` when it points along `d` (dot >= 0), else `-v`. */
  function Facing(v: Vec, direction: Vec): (r: Vec)
    requires |v| == |direction|
    ensures r == v || r == Reverse(v)
    ensures Dot(r, direction) >= 0.0
    ensures Dot(v, direction) >= 0.0 ==> r == v
    ensures Dot(v, direction) < 0.0 ==> r == Reverse(v)
  {
    DotReverse(v, direction);
    if Dot(v, direction) >= 0.0 then v else Reverse(v)
  }

  /** `Vector2::rotate`: complex multiplication. */
  function Rotate(a: Vec2, b: Vec2): Vec2
  {
    [a[0] * b[0] - a[1] * b[1], a[0] * b[1] + a[1] * b[0]]
  }

  /** `Vector2::perp`: a quarter turn counter-clockwise. */
  function Perp(a: Vec2): Vec2
  {
    [-a[1], a[0]]
  }

  function Cross(a: Vec3, b: Vec3): Vec3
  {
    [a[1] * b[2] - a[2] * b[1],
     a[2] * b[0] - a[0] * b[2],
     a[0] * b[1] - a[1] * b[0]]
  }

  /** `reflect(I, N)` is `I - I.project(N) * 2`. */
  function Reflect(i: Vec3, n: Vec3): Vec3
  {
    Sub(i, Scale(Project(i, n), 2.0))
  }

  /** `refract(I, N, mu)` as the source writes it: k = 1 - mu^2 (1 - I.N), and
      the root of k is multiplied by mu. */
  function RefractAsWritten(i: Vec3, n: Vec3, mu: real, sqrt: real -> real): Vec3
    requires IsSqrt(sqrt)
  {
    var k := 1.0 - mu * mu * (1.0 - Dot(i, n));
    if k < 0.0 then Splat3(0.0)
    else Sub(Scale(i, mu), Scale(Scale(n, mu), Dot(n, i) + sqrt(k)))
  }

  /** The discriminant of Snell refraction: 1 - mu^2 (1 - c^2), where c is
      the cosine N.I. */
  function RefractK(c: real, mu: real): real
  {
    1.0 - mu * mu * (1.0 - c * c)
  }

  /** Snell refraction as in GLSL's `refract`: k = 1 - mu^2 (1 - (N.I)^2) and
      T = mu I - (mu N.I + sqrt k) N; the zero vector on total internal
      reflection. */
  function Refract(i: Vec3, n: Vec3, mu: real, sqrt: real -> real): (t: Vec3)
    requires IsSqrt(sqrt)
    ensures RefractK(Dot(n, i), mu) < 0.0 ==> t == Splat3(0.0)
  {
    var c := Dot(n, i);
    if RefractK(c, mu) < 0.0 then Splat3(0.0)
    else Sub(Scale(i, mu), Scale(n, RefractFactor(c, mu, sqrt)))
  }

  /** The factor mu c + sqrt k of N in the refracted direction. */
  function RefractFactor(c: real, mu: real, sqrt: real -> real): real
  {
    mu * c + sqrt(RefractK(c, mu))
  }

  // ---------------------------------------------------------------------
  // In-place compound assignments and the loops of the source

  /** `lhs += rhs` */
  method AddAssign(lhs: array<real>, rhs: Vec)
    requires lhs.Length == |rhs|
    modifies lhs
    ensures lhs[..] == Add(old(lhs[..]), rhs)
  {
    for i := 0 to lhs.Length
      invariant forall k :: 0 <= k < i ==> lhs[k] == old(lhs[k]) + rhs[k]
      invariant forall k :: i <= k < lhs.Length ==> lhs[k] == old(lhs[k])
    {
      lhs[i] := lhs[i] + rhs[i];
    }
  }

  /** `lhs -= rhs` */
  method SubAssign(lhs: array<real>, rhs: Vec)
    requires lhs.Length == |rhs|
    modifies lhs
    ensures lhs[..] == Sub(old(lhs[..]), rhs)
  {
    for i := 0 to lhs.Length
      invariant forall k :: 0 <= k < i ==> lhs[k] == old(lhs[k]) - rhs[k]
      invariant forall k :: i <= k < lhs.Length ==> lhs[k] == old(lhs[k])
    {
      lhs[i] := lhs[i] - rhs[i];
    }
  }

  /** `lhs *= rhs` (component-wise) */
  method MulAssign(lhs: array<real>, rhs: Vec)
    requires lhs.Length == |rhs|
    modifies lhs
    ensures lhs[..] == Mul(old(lhs[..]), rhs)
  {
    for i := 0 to lhs.Length
      invariant forall k :: 0 <= k < i ==> lhs[k] == old(lhs[k]) * rhs[k]
      invariant forall k :: i <= k < lhs.Length ==> lhs[k] == old(lhs[k])
    {
      lhs[i] := lhs[i] * rhs[i];
    }
    assert forall k :: 0 <= k < lhs.Length ==> lhs[..][k] == Mul(old(lhs[..]), rhs)[k];
  }

  /** `lhs += scalar` */
  method AddScalarAssign(lhs: array<real>, scalar: real)
    modifies lhs
    ensures lhs[..] == AddScalar(old(lhs[..]), scalar)
  {
    for i := 0 to lhs.Length
      invariant forall k :: 0 <= k < i ==> lhs[k] == old(lhs[k]) + scalar
      invariant forall k :: i <= k < lhs.Length ==> lhs[k] == old(lhs[k])
    {
      lhs[i] := lhs[i] + scalar;
    }
  }

  /** `lhs -= scalar` */
  method SubScalarAssign(lhs: array<real>, scalar: real)
    modifies lhs
    ensures lhs[..] == SubScalar(old(lhs[..]), scalar)
  {
    for i := 0 to lhs.Length
      invariant forall k :: 0 <= k < i ==> lhs[k] == old(lhs[k]) - scalar
      invariant forall k :: i <= k < lhs.Length ==> lhs[k] == old(lhs[k])
    {
      lhs[i] := lhs[i] - scalar;
    }
  }

  /** `lhs *= scalar` */
  method MulScalarAssign(lhs: array<real>, scalar: real)
    modifies lhs
    ensures lhs[..] == Scale(old(lhs[..]), scalar)
  {
    for i := 0 to lhs.Length
      invariant forall k :: 0 <= k < i ==> lhs[k] == old(lhs[k]) * scalar
      invariant forall k :: i <= k < lhs.Length ==> lhs[k] == old(lhs[k])
    {
      lhs[i] := lhs[i] * scalar;
    }
    assert forall k :: 0 <= k < lhs.Length ==> lhs[..][k] == Scale(old(lhs[..]), scalar)[k];
  }

  /** `lhs /= scalar` */
  method DivScalarAssign(lhs: array<real>, scalar: real)
    requires scalar != 0.0
    modifies lhs
    ensures lhs[..] == DivScalar(old(lhs[..]), scalar)
  {
    for i := 0 to lhs.Length
      invariant forall k :: 0 <= k < i ==> lhs[k] == old(lhs[k]) / scalar
      invariant forall k :: i <= k < lhs.Length ==> lhs[k] == old(lhs[k])
    {
      lhs[i] := lhs[i] / scalar;
    }
  }

  /** `normalize()`: `*this *= 1 / norm()`, leaving a unit vector. */
  method Normalize(v: array<real>, sqrt: real -> real)
    requires IsSqrt(sqrt)
    requires NormSquared(v[..]) != 0.0
    modifies v
    ensures v[..] == Unit(old(v[..]), sqrt)
    ensures NormSquared(v[..]) == 1.0
  {
    NormSquaredNonNegative(v[..]);
    var n := Norm(v[..], sqrt);
    MulScalarAssign(v, 1.0 / n);
  }

  /** The binary `lhs + rhs`: the compound assignment on a copy of `lhs`. */
  method Plus(lhs: Vec, rhs: Vec) returns (r: Vec)
    requires |lhs| == |rhs|
    ensures |r| == |lhs|
    ensures forall k :: 0 <= k < |r| ==> r[k] == lhs[k] + rhs[k]
  {
    var copy := new real[|lhs|](i requires 0 <= i < |lhs| => lhs[i]);
    assert copy[..] == lhs;
    AddAssign(copy, rhs);
    r := copy[..];
  }

  /** The binary `lhs - rhs`. */
  method Minus(lhs: Vec, rhs: Vec) returns (r: Vec)
    requires |lhs| == |rhs|
    ensures |r| == |lhs|
    ensures forall k :: 0 <= k < |r| ==> r[k] == lhs[k] - rhs[k]
  {
    var copy := new real[|lhs|](i requires 0 <= i < |lhs| => lhs[i]);
    assert copy[..] == lhs;
    SubAssign(copy, rhs);
    r := copy[..];
  }

  /** The binary component-wise `lhs * rhs`. */
  method Times(lhs: Vec, rhs: Vec) returns (r: Vec)
    requires |lhs| == |rhs|
    ensures |r| == |lhs|
    ensures forall k :: 0 <= k < |r| ==> r[k] == lhs[k] * rhs[k]
  {
    var copy := new real[|lhs|](i requires 0 <= i < |lhs| => lhs[i]);
    assert copy[..] == lhs;
    MulAssign(copy, rhs);
    r := copy[..];
  }

  /** `reverse()` builds a fresh vector component by component. */
  method Reversed(v: Vec) returns (out: Vec)
    ensures |out| == |v|
    ensures forall k :: 0 <= k < |v| ==> out[k] == -v[k]
  {
    var a := new real[|v|];
    for i := 0 to |v|
      invariant forall k :: 0 <= k < i ==> a[k] == -v[k]
    {
      a[i] := -v[i];
    }
    out := a[..];
  }

  /** `dot`: the loop accumulating `sum`. */
  method DotLoop(a: Vec, b: Vec) returns (sum: real)
    requires |a| == |b|
    ensures sum == Dot(a, b)
    ensures a == b ==> sum >= 0.0
  {
    sum := 0.0;
    for i := 0 to |a|
      invariant sum == Dot(a[..i], b[..i])
    {
      assert a[..i + 1][..i] == a[..i] && b[..i + 1][..i] == b[..i];
      sum := sum + a[i] * b[i];
    }
    assert a[..|a|] == a && b[..|b|] == b;
    NormSquaredNonNegative(a);
  }

  // ---------------------------------------------------------------------
  // Algebraic identities

  lemma Dot2(a: Vec, b: Vec)
    requires |a| == |b| == 2
    ensures Dot(a, b) == a[0] * b[0] + a[1] * b[1]
  {
    assert a[..1][..0] == [] && b[..1][..0] == [];
    assert Dot(a[..1], b[..1]) == a[0] * b[0];
  }

  lemma Dot3(a: Vec, b: Vec)
    requires |a| == |b| == 3
    ensures Dot(a, b) == a[0] * b[0] + a[1] * b[1] + a[2] * b[2]
  {
    assert a[..2][..1] == a[..1] && b[..2][..1] == b[..1];
    assert a[..1][..0] == [] && b[..1][..0] == [];
    assert Dot(a[..1], b[..1]) == a[0] * b[0];
    assert Dot(a[..2], b[..2]) == a[0] * b[0] + a[1] * b[1];
  }

  /** A 3-vector is the literal of its components. */
  lemma Components3(v: Vec3)
    ensures v == [v[0], v[1], v[2]]
  {
  }

  /** `reverse` is an involution. */
  lemma ReverseInvolution(a: Vec)
    ensures Reverse(Reverse(a)) == a
  {
  }

  lemma {:induction false} DotSymmetric(a: Vec, b: Vec)
    requires |a| == |b|
    ensures Dot(a, b) == Dot(b, a)
  {
    if |a| > 0 {
      DotSymmetric(a[..|a| - 1], b[..|a| - 1]);
    }
  }

  lemma {:induction false} NormSquaredNonNegative(a: Vec)
    ensures NormSquared(a) >= 0.0
  {
    if |a| > 0 {
      NormSquaredNonNegative(a[..|a| - 1]);
    }
  }

  /** Scaling both sides scales the dot product. */
  lemma {:induction false} DotScale(a: Vec, b: Vec, s: real)
    requires |a| == |b|
    ensures Dot(Scale(a, s), b) == s * Dot(a, b)
  {
    if |a| > 0 {
      var n := |a| - 1;
      ScalePrefix(a, s, n);
      DotScale(a[..n], b[..n], s);
    }
  }

  lemma ScalePrefix(a: Vec, s: real, n: nat)
    requires n <= |a|
    ensures Scale(a, s)[..n] == Scale(a[..n], s)
  {
    assert forall k :: 0 <= k < n ==> Scale(a, s)[..n][k] == Scale(a[..n], s)[k];
  }

  /** Scaling by `1 / n` and then by `n` gives the vector back. */
  lemma ScaleUndone(a: Vec, n: real)
    requires n != 0.0
    ensures Scale(Scale(a, 1.0 / n), n) == a
  {
    forall k | 0 <= k < |a|
      ensures Scale(Scale(a, 1.0 / n), n)[k] == a[k]
    {
      assert a[k] * (1.0 / n) * n == a[k];
    }
  }

  /** Scaling by the reciprocal of the norm gives squared norm one. */
  lemma NormSquaredScaleUnit(a: Vec, n: real)
    requires n * n == NormSquared(a) && n != 0.0
    ensures NormSquared(Scale(a, 1.0 / n)) == 1.0
  {
    var k := 1.0 / n;
    DotScale(a, Scale(a, k), k);
    DotSymmetric(a, Scale(a, k));
    DotScale(a, a, k);
    ReciprocalSquare(n, NormSquared(a), Dot(Scale(a, k), a), NormSquared(Scale(a, k)));
  }

  lemma ReciprocalSquare(n: real, q: real, y: real, x: real)
    requires n * n == q && n != 0.0
    requires y == (1.0 / n) * q
    requires x == (1.0 / n) * y
    ensures x == 1.0
  {
  }

  /** `dot` distributes over `+` and `-` in its second argument. */
  lemma {:induction false} DotAdd(a: Vec, b: Vec, c: Vec)
    requires |a| == |b| == |c|
    ensures Dot(a, Add(b, c)) == Dot(a, b) + Dot(a, c)
  {
    if |a| > 0 {
      var n := |a| - 1;
      assert Add(b, c)[..n] == Add(b[..n], c[..n]);
      DotAdd(a[..n], b[..n], c[..n]);
    }
  }

  lemma {:induction false} DotSub(a: Vec, b: Vec, c: Vec)
    requires |a| == |b| == |c|
    ensures Dot(a, Sub(b, c)) == Dot(a, b) - Dot(a, c)
  {
    if |a| > 0 {
      var n := |a| - 1;
      assert Sub(b, c)[..n] == Sub(b[..n], c[..n]);
      DotSub(a[..n], b[..n], c[..n]);
    }
  }

  lemma {:induction false} DotReverse(a: Vec, b: Vec)
    requires |a| == |b|
    ensures Dot(Reverse(a), b) == -Dot(a, b)
  {
    if |a| > 0 {
      var n := |a| - 1;
      assert Reverse(a)[..n] == Reverse(a[..n]);
      DotReverse(a[..n], b[..n]);
    }
  }

  /** A cross product is orthogonal to both factors and anti-commutes. */
  lemma CrossOrthogonal(a: Vec3, b: Vec3)
    ensures Dot(Cross(a, b), a) == 0.0 && Dot(Cross(a, b), b) == 0.0
    ensures Cross(b, a) == Reverse(Cross(a, b))
  {
    Dot3(Cross(a, b), a);
    Dot3(Cross(a, b), b);
  }

  /** `perp` is a quarter turn: orthogonal to its argument, and twice is `-v`. */
  lemma PerpQuarterTurn(a: Vec2)
    ensures Dot(Perp(a), a) == 0.0
    ensures Perp(Perp(a)) == Reverse(a)
    ensures NormSquared(Perp(a)) == NormSquared(a)
  {
    Dot2(Perp(a), a);
    Dot2(Perp(a), Perp(a));
    Dot2(a, a);
  }

  /** Complex multiplication multiplies squared lengths. */
  lemma RotateNorm(a: Vec2, b: Vec2)
    ensures NormSquared(Rotate(a, b)) == NormSquared(a) * NormSquared(b)
  {
    var r := Rotate(a, b);
    Dot2(r, r);
    Dot2(a, a);
    Dot2(b, b);
    calc {
      r[0] * r[0] + r[1] * r[1];
      (a[0] * b[0] - a[1] * b[1]) * (a[0] * b[0] - a[1] * b[1]) + (a[0] * b[1] + a[1] * b[0]) * (a[0] * b[1] + a[1] * b[0]);
      (a[0] * a[0] + a[1] * a[1]) * (b[0] * b[0] + b[1] * b[1]);
    }
  }

  /** Onto a unit vector, the projection keeps the component along it, so
      projecting a second time changes nothing. */
  lemma ProjectOntoUnit(v: Vec, c: Vec)
    requires |v| == |c| && NormSquared(c) == 1.0
    ensures Dot(c, Project(v, c)) == Dot(c, v)
    ensures Project(Project(v, c), c) == Project(v, c)
  {
    DotScale(c, c, Dot(c, v));
    DotSymmetric(c, Scale(c, Dot(c, v)));
  }

  /** Reflection about a unit normal flips the normal component and keeps the
      length. */
  lemma ReflectAboutUnitNormal(i: Vec3, n: Vec3)
    requires NormSquared(n) == 1.0
    ensures Dot(Reflect(i, n), n) == -Dot(i, n)
    ensures NormSquared(Reflect(i, n)) == NormSquared(i)
  {
    var r := Reflect(i, n);
    ReflectComponentsAlgebra(i, n);
    Dot3(r, n);
    Dot3(i, n);
    NormSquared3(r);
    NormSquared3(i);
  }

  lemma ReflectComponentsAlgebra(i: Vec3, n: Vec3)
    requires NormSquared(n) == 1.0
    ensures var r := Reflect(i, n);
      r[0] * n[0] + r[1] * n[1] + r[2] * n[2] == -(i[0] * n[0] + i[1] * n[1] + i[2] * n[2])
    ensures var r := Reflect(i, n);
      SumOfSquares3(r[0], r[1], r[2]) == SumOfSquares3(i[0], i[1], i[2])
  {
    var c := Dot(n, i);
    var r := Reflect(i, n);
    ReflectComponents(i, n, c);
    Dot3(n, i);
    NormSquared3(n);
    ReflectAlgebra(i[0], i[1], i[2], n[0], n[1], n[2], c, r[0], r[1], r[2]);
  }

  lemma ReflectComponents(i: Vec3, n: Vec3, c: real)
    requires c == Dot(n, i)
    ensures var r := Reflect(i, n);
      r[0] == i[0] - n[0] * (c * 2.0) && r[1] == i[1] - n[1] * (c * 2.0) && r[2] == i[2] - n[2] * (c * 2.0)
  {
  }

  lemma ReflectAlgebra(i0: real, i1: real, i2: real, n0: real, n1: real, n2: real, c: real,
                       r0: real, r1: real, r2: real)
    requires SumOfSquares3(n0, n1, n2) == 1.0
    requires c == n0 * i0 + n1 * i1 + n2 * i2
    requires r0 == i0 - n0 * (c * 2.0) && r1 == i1 - n1 * (c * 2.0) && r2 == i2 - n2 * (c * 2.0)
    ensures r0 * n0 + r1 * n1 + r2 * n2 == -(i0 * n0 + i1 * n1 + i2 * n2)
    ensures SumOfSquares3(r0, r1, r2) == SumOfSquares3(i0, i1, i2)
  {
    var m := c * 2.0;
    calc {
      r0 * n0 + r1 * n1 + r2 * n2;
      c - m * (n0 * n0 + n1 * n1 + n2 * n2);
      -c;
    }
    SquareOfDifference(i0, n0, 1.0, m);
    SquareOfDifference(i1, n1, 1.0, m);
    SquareOfDifference(i2, n2, 1.0, m);
    calc {
      SumOfSquares3(r0, r1, r2);
      i0 * i0 + i1 * i1 + i2 * i2 - 2.0 * m * c + m * m * (n0 * n0 + n1 * n1 + n2 * n2);
      i0 * i0 + i1 * i1 + i2 * i2;
    }
  }

  /** With a unit incident direction and a unit normal, the refracted
      direction is a unit vector whenever it exists. */
  lemma RefractIsUnit(i: Vec3, n: Vec3, mu: real, sqrt: real -> real)
    requires IsSqrt(sqrt)
    requires NormSquared(i) == 1.0 && NormSquared(n) == 1.0
    requires RefractK(Dot(n, i), mu) >= 0.0
    ensures NormSquared(Refract(i, n, mu, sqrt)) == 1.0
  {
    RefractShape(i, n, mu, sqrt);
    RefractCombinationIsUnit(i, n, mu, RefractK(Dot(n, i), mu), sqrt(RefractK(Dot(n, i), mu)),
                             RefractFactor(Dot(n, i), mu, sqrt));
  }

  /** Without total internal reflection T = mu I - f N, and f = mu c + sqrt k. */
  lemma RefractShape(i: Vec3, n: Vec3, mu: real, sqrt: real -> real)
    requires IsSqrt(sqrt)
    requires RefractK(Dot(n, i), mu) >= 0.0
    ensures Refract(i, n, mu, sqrt) == Sub(Scale(i, mu), Scale(n, RefractFactor(Dot(n, i), mu, sqrt)))
    ensures RefractFactor(Dot(n, i), mu, sqrt) == mu * Dot(n, i) + sqrt(RefractK(Dot(n, i), mu))
    ensures sqrt(RefractK(Dot(n, i), mu)) * sqrt(RefractK(Dot(n, i), mu)) == RefractK(Dot(n, i), mu)
  {
  }

  /** For unit I and N and any root s of k, mu I - (mu c + s) N is a unit
      vector. */
  lemma RefractCombinationIsUnit(i: Vec3, n: Vec3, mu: real, k: real, s: real, f: real)
    requires NormSquared(i) == 1.0 && NormSquared(n) == 1.0
    requires k == RefractK(Dot(n, i), mu) && Square(s) == k
    requires f == mu * Dot(n, i) + s
    ensures NormSquared(Sub(Scale(i, mu), Scale(n, f))) == 1.0
  {
    NormSquaredDifference(i, n, mu, f);
    RefractAlgebra(NormSquared(Sub(Scale(i, mu), Scale(n, f))), NormSquared(i), NormSquared(n), Dot(n, i), mu,
                   k, s, f);
  }

  function SumOfSquares3(x: real, y: real, z: real): real
  {
    x * x + y * y + z * z
  }

  lemma NormSquared3(v: Vec3)
    ensures NormSquared(v) == SumOfSquares3(v[0], v[1], v[2])
  {
    Dot3(v, v);
  }

  /** |alpha a - beta b|^2 = alpha^2 |a|^2 - 2 alpha beta (b.a) + beta^2 |b|^2. */
  lemma NormSquaredDifference(a: Vec3, b: Vec3, alpha: real, beta: real)
    ensures NormSquared(Sub(Scale(a, alpha), Scale(b, beta)))
         == alpha * alpha * NormSquared(a) - 2.0 * alpha * beta * Dot(b, a) + beta * beta * NormSquared(b)
  {
    DifferenceComponents(a, b, alpha, beta);
    NormSquared3(Sub(Scale(a, alpha), Scale(b, beta)));
    NormSquared3(a);
    NormSquared3(b);
    Dot3(b, a);
    DifferenceAlgebra(a[0], a[1], a[2], b[0], b[1], b[2], alpha, beta,
                      Sub(Scale(a, alpha), Scale(b, beta))[0], Sub(Scale(a, alpha), Scale(b, beta))[1],
                      Sub(Scale(a, alpha), Scale(b, beta))[2],
                      NormSquared(Sub(Scale(a, alpha), Scale(b, beta))), NormSquared(a), NormSquared(b), Dot(b, a));
  }

  lemma DifferenceComponents(a: Vec3, b: Vec3, alpha: real, beta: real)
    ensures Sub(Scale(a, alpha), Scale(b, beta))[0] == a[0] * alpha - b[0] * beta
    ensures Sub(Scale(a, alpha), Scale(b, beta))[1] == a[1] * alpha - b[1] * beta
    ensures Sub(Scale(a, alpha), Scale(b, beta))[2] == a[2] * alpha - b[2] * beta
  {
  }

  lemma DifferenceAlgebra(a0: real, a1: real, a2: real, b0: real, b1: real, b2: real, alpha: real, beta: real,
                          t0: real, t1: real, t2: real, nt: real, na: real, nb: real, ba: real)
    requires t0 == a0 * alpha - b0 * beta && t1 == a1 * alpha - b1 * beta && t2 == a2 * alpha - b2 * beta
    requires nt == SumOfSquares3(t0, t1, t2)
    requires na == SumOfSquares3(a0, a1, a2) && nb == SumOfSquares3(b0, b1, b2)
    requires ba == b0 * a0 + b1 * a1 + b2 * a2
    ensures nt == alpha * alpha * na - 2.0 * alpha * beta * ba + beta * beta * nb
  {
    SquareOfDifference(a0, b0, alpha, beta);
    SquareOfDifference(a1, b1, alpha, beta);
    SquareOfDifference(a2, b2, alpha, beta);
  }

  /** With unit I and N, cosine c and s^2 = k, |mu I - (mu c + s) N|^2 = 1. */
  lemma RefractAlgebra(nt: real, ni: real, nn: real, c: real, mu: real, k: real, s: real, f: real)
    requires nt == mu * mu * ni - 2.0 * mu * f * c + f * f * nn
    requires ni == 1.0 && nn == 1.0
    requires k == RefractK(c, mu) && s * s == k
    requires f == mu * c + s
    ensures nt == 1.0
  {
    calc {
      nt;
      mu * mu - 2.0 * mu * f * c + f * f;
      mu * mu - mu * mu * c * c + s * s;
      1.0;
    }
  }

  lemma SquareOfDifference(a: real, b: real, mu: real, f: real)
    ensures (a * mu - b * f) * (a * mu - b * f) == mu * mu * (a * a) - 2.0 * mu * f * (b * a) + f * f * (b * b)
  {
  }

  /** Between media of equal index (mu = 1) a ray arriving against the normal
      passes straight through. */
  lemma RefractUnitIndex(i: Vec3, n: Vec3, sqrt: real -> real)
    requires IsSqrt(sqrt)
    requires Dot(n, i) <= 0.0
    ensures Refract(i, n, 1.0, sqrt) == i
  {
    var c := Dot(n, i);
    SqrtOfSquare(sqrt, RefractK(c, 1.0), -c);
    var f := RefractFactor(c, 1.0, sqrt);
    assert f == 0.0;
    var t := Refract(i, n, 1.0, sqrt);
    assert t == Sub(Scale(i, 1.0), Scale(n, f));
    assert forall k :: 0 <= k < 3 ==> t[k] == i[k];
  }

  /** The formula as written reports total internal reflection between media
      of equal index: a ray hitting the surface head-on (I = -N, mu = 1) gives
      the zero vector, where the refracted ray is I itself. */
  lemma RefractAsWrittenHeadOn(sqrt: real -> real)
    requires IsSqrt(sqrt)
    ensures RefractAsWritten([0.0, 0.0, -1.0], [0.0, 0.0, 1.0], 1.0, sqrt) == Splat3(0.0)
    ensures Refract([0.0, 0.0, -1.0], [0.0, 0.0, 1.0], 1.0, sqrt) == [0.0, 0.0, -1.0]
  {
    var i: Vec3 := [0.0, 0.0, -1.0];
    var n: Vec3 := [0.0, 0.0, 1.0];
    Dot3(i, n);
    Dot3(n, i);
    RefractUnitIndex(i, n, sqrt);
  }
}
