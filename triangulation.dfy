/** The index arithmetic shared by both canvas implementations
    (src/graphics/canvas.cpp and src/canvas.cpp): a filled polygon is a fan
    of triangles around a centre vertex, a stroked polygon a ring of quads
    between an inner and an outer rim, and a line one quad. Indices are
    `u32`, so every sum wraps modulo 2^32 as in the source; vertex positions
    (rotations by `cos`/`sin`) are not modelled, so a vertex is its colour. */
module Triangulation {
  import opened Vectors

  const U32_MODULUS: int := 0x1_0000_0000

  /** Unsigned 32-bit arithmetic: the value modulo 2^32. */
  function U32(x: int): (r: int)
    ensures 0 <= r < U32_MODULUS
    ensures 0 <= x < U32_MODULUS ==> r == x
  {
    x % U32_MODULUS
  }

  datatype Vertex = Vertex(color: Vec)

  /** `n` vertices of colour `color`. */
  function Repeat(color: Vec, n: nat): (r: seq<Vertex>)
    ensures |r| == n && forall k :: 0 <= k < n ==> r[k] == Vertex(color)
  {
    seq(n, _ => Vertex(color))
  }

  /** Appending one more vertex of the same colour extends the run. */
  lemma RepeatSnoc(prefix: seq<Vertex>, color: Vec, n: nat)
    ensures prefix + Repeat(color, n) + [Vertex(color)] == prefix + Repeat(color, n + 1)
  {
    assert Repeat(color, n) + [Vertex(color)] == Repeat(color, n + 1);
  }

  /** Two appends in a row append the concatenation. */
  lemma AppendTwo<T>(a: seq<T>, b: seq<T>, c: seq<T>, x: seq<T>, y: seq<T>)
    requires b == a + x && c == b + y
    ensures c == a + (x + y)
  {
  }

  lemma AppendThree<T>(a: seq<T>, b: seq<T>, c: seq<T>, d: seq<T>, x: seq<T>, y: seq<T>, z: seq<T>)
    requires b == a + x && c == b + y && d == c + z
    ensures d == a + x + y + z
  {
  }

  /** Every entry of `s` lies in `[lo, hi)`. */
  ghost predicate Within(s: seq<int>, lo: int, hi: int)
  {
    forall k :: 0 <= k < |s| ==> lo <= s[k] < hi
  }

  lemma WithinConcat(a: seq<int>, b: seq<int>, lo: int, hi: int)
    requires Within(a, lo, hi) && Within(b, lo, hi)
    ensures Within(a + b, lo, hi)
  {
    forall k | 0 <= k < |a + b|
      ensures lo <= (a + b)[k] < hi
    {
      if k < |a| {
        assert (a + b)[k] == a[k];
      } else {
        assert (a + b)[k] == b[k - |a|];
      }
    }
  }

  lemma WithinWiden(a: seq<int>, lo: int, hi: int, lo': int, hi': int)
    requires Within(a, lo, hi) && lo' <= lo && hi <= hi'
    ensures Within(a, lo', hi')
  {
  }

  // ----- Filled polygon: a fan around the centre -----

  /** Triangle `i` of a fan whose centre vertex is `base - 1` and whose rim
      vertices start at `base`: `(base - 1, base + i, base + (i + 1) % sides)`. */
  function Triangle(base: int, sides: int, i: int): (t: seq<int>)
    requires 0 < sides
    ensures |t| == 3
  {
    [U32(base - 1), U32(base + i), U32(base + (i + 1) % sides)]
  }

  /** The indices of the first `n` triangles of the fan. */
  function Fan(base: int, sides: int, n: nat): (r: seq<int>)
    requires n <= sides
    ensures |r| == 3 * n
  {
    if n == 0 then [] else Fan(base, sides, n - 1) + Triangle(base, sides, n - 1)
  }

  /** Appending triangle `i` to the first `i` triangles gives `i + 1`. */
  lemma FanSnoc(prefix: seq<int>, base: int, sides: int, i: nat)
    requires i < sides
    ensures prefix + Fan(base, sides, i) + Triangle(base, sides, i) == prefix + Fan(base, sides, i + 1)
  {
  }

  /** Triangle `i` occupies entries `3 * i` to `3 * i + 2` of the fan. */
  lemma {:induction false} FanTriangleAt(base: int, sides: int, n: nat, i: int)
    requires 0 <= i < n <= sides
    ensures Fan(base, sides, n)[3 * i..3 * i + 3] == Triangle(base, sides, i)
  {
    if i < n - 1 {
      FanTriangleAt(base, sides, n - 1, i);
      assert Fan(base, sides, n)[..3 * (n - 1)] == Fan(base, sides, n - 1);
      assert Fan(base, sides, n)[3 * i..3 * i + 3] == Fan(base, sides, n)[..3 * (n - 1)][3 * i..3 * i + 3];
    } else {
      assert Fan(base, sides, n)[3 * (n - 1)..] == Triangle(base, sides, n - 1);
    }
  }

  /** The last triangle of a full fan closes it: its third vertex is the
      first rim vertex `base`. */
  lemma FanCloses(base: int, sides: int)
    requires 0 < sides
    ensures Triangle(base, sides, sides - 1)[2] == U32(base)
    ensures Fan(base, sides, sides)[3 * sides - 1] == U32(base)
  {
    FanTriangleAt(base, sides, sides, sides - 1);
    assert Fan(base, sides, sides)[3 * sides - 1] == Fan(base, sides, sides)[3 * (sides - 1)..3 * (sides - 1) + 3][2];
  }

  /** When the vertex count does not pass 2^32, a fan drawn after `count`
      vertices (its centre is vertex `count`, its rim `count + 1` onwards)
      refers only to the `sides + 1` vertices it appended. */
  lemma {:induction false} FanFresh(count: int, sides: int, n: nat)
    requires 0 <= count && count + 1 + sides <= U32_MODULUS && n <= sides
    ensures Within(Fan(U32(count + 1), sides, n), count, count + 1 + sides)
  {
    if n > 0 {
      FanFresh(count, sides, n - 1);
      var t := Triangle(U32(count + 1), sides, n - 1);
      assert t == [count, count + n, count + 1 + n % sides];
      WithinConcat(Fan(U32(count + 1), sides, n - 1), t, count, count + 1 + sides);
    }
  }

  // ----- Stroked polygon: a ring of quads -----

  /** The offsets `{ 0, 2, 3, 0, 3, 1 }` of a ring segment's two triangles. */
  const RING_OFFSETS: seq<int> := [0, 2, 3, 0, 3, 1]

  /** `2 * sides` is not zero as a `u32`, so `% (2 * sides)` is defined. */
  predicate RingDefined(sides: int)
  {
    U32(2 * sides) != 0
  }

  /** Entry `t` of segment `i`: `base + (2 * i + idx) % (2 * sides)` in
      `u32` arithmetic. */
  function RingIndex(base: int, sides: int, i: int, t: int): (r: int)
    requires 0 <= t < 6 && RingDefined(sides)
    ensures 0 <= r < U32_MODULUS
  {
    U32(base + U32(2 * i + RING_OFFSETS[t]) % U32(2 * sides))
  }

  /** The six indices of ring segment `i`: two triangles between rim
      vertices `2 * i`, `2 * i + 1` and the next pair, wrapping to the first
      pair after the last. */
  function RingSegment(base: int, sides: int, i: int): (r: seq<int>)
    requires RingDefined(sides)
    ensures |r| == 6 && forall t :: 0 <= t < 6 ==> r[t] == RingIndex(base, sides, i, t)
  {
    seq(6, t requires 0 <= t < 6 => RingIndex(base, sides, i, t))
  }

  /** The indices of the first `n` segments of the ring. */
  function Ring(base: int, sides: int, n: nat): (r: seq<int>)
    requires n == 0 || RingDefined(sides)
    ensures |r| == 6 * n
  {
    if n == 0 then [] else Ring(base, sides, n - 1) + RingSegment(base, sides, n - 1)
  }

  /** Appending segment `i` to the first `i` segments gives `i + 1`. */
  lemma RingSnoc(prefix: seq<int>, base: int, sides: int, i: nat)
    requires RingDefined(sides)
    ensures prefix + Ring(base, sides, i) + RingSegment(base, sides, i) == prefix + Ring(base, sides, i + 1)
  {
  }

  /** Segment `i` occupies entries `6 * i` to `6 * i + 5` of the ring. */
  lemma {:induction false} RingSegmentAt(base: int, sides: int, n: nat, i: int)
    requires RingDefined(sides) && 0 <= i < n
    ensures Ring(base, sides, n)[6 * i..6 * i + 6] == RingSegment(base, sides, i)
  {
    if i < n - 1 {
      RingSegmentAt(base, sides, n - 1, i);
      assert Ring(base, sides, n)[..6 * (n - 1)] == Ring(base, sides, n - 1);
      assert Ring(base, sides, n)[6 * i..6 * i + 6] == Ring(base, sides, n)[..6 * (n - 1)][6 * i..6 * i + 6];
    } else {
      assert Ring(base, sides, n)[6 * (n - 1)..] == RingSegment(base, sides, n - 1);
    }
  }

  /** Without wrap-around, entry `t` of segment `i` is
      `count + (2 * i + idx) % (2 * sides)`: an index relative to the ring's
      first vertex, taken modulo its `2 * sides` vertices. */
  lemma RingIndexNoWrap(count: int, sides: int, i: int, t: int)
    requires 0 <= count && 0 < sides && count + 2 * sides <= U32_MODULUS && RingDefined(sides)
    requires 0 <= i < sides && 0 <= t < 6
    ensures RingIndex(count, sides, i, t) == count + (2 * i + RING_OFFSETS[t]) % (2 * sides)
    ensures count <= RingIndex(count, sides, i, t) < count + 2 * sides
  {
    assert 2 * sides < U32_MODULUS;
    assert U32(2 * i + RING_OFFSETS[t]) == 2 * i + RING_OFFSETS[t];
  }

  /** When the vertex count does not pass 2^32, a ring drawn after `count`
      vertices refers only to the `2 * sides` vertices it appended. */
  lemma {:induction false} RingFresh(count: int, sides: int, n: nat)
    requires 0 <= count && count + 2 * sides <= U32_MODULUS && n <= sides
    requires n == 0 || RingDefined(sides)
    ensures Within(Ring(U32(count), sides, n), count, count + 2 * sides)
  {
    if n > 0 {
      RingFresh(count, sides, n - 1);
      assert U32(count) == count;
      var seg := RingSegment(count, sides, n - 1);
      forall t | 0 <= t < 6
        ensures count <= seg[t] < count + 2 * sides
      {
        RingIndexNoWrap(count, sides, n - 1, t);
      }
      WithinConcat(Ring(U32(count), sides, n - 1), seg, count, count + 2 * sides);
    }
  }

  // ----- Whole polygons -----

  /** What a filled polygon appends after `count` vertices: the centre,
      `sides` rim vertices, and one triangle per side. */
  function FillIndices(count: int, sides: nat): seq<int>
  {
    Fan(U32(count + 1), sides, sides)
  }

  /** What a stroked polygon appends after `count` vertices: six indices per
      side. */
  function StrokeIndices(count: int, sides: nat): seq<int>
    requires sides == 0 || RingDefined(sides)
  {
    Ring(U32(count), sides, sides)
  }

  /** A filled polygon drawn after `count` vertices has three indices per
      side and refers only to its own `sides + 1` vertices. */
  lemma FillIndicesFresh(count: int, sides: nat)
    requires 0 <= count && count + 1 + sides <= U32_MODULUS
    ensures |FillIndices(count, sides)| == 3 * sides
    ensures Within(FillIndices(count, sides), count, count + 1 + sides)
  {
    FanFresh(count, sides, sides);
  }

  /** A stroked polygon drawn after `count` vertices has six indices per
      side and refers only to its own `2 * sides` vertices. */
  lemma StrokeIndicesFresh(count: int, sides: nat)
    requires sides == 0 || RingDefined(sides)
    requires 0 <= count && count + 2 * sides <= U32_MODULUS
    ensures |StrokeIndices(count, sides)| == 6 * sides
    ensures Within(StrokeIndices(count, sides), count, count + 2 * sides)
  {
    RingFresh(count, sides, sides);
  }

  /** Without wrap-around, triangle `i` of a filled polygon drawn after
      `count` vertices joins the centre `count` to rim vertices `i` and
      `(i + 1) % sides`, which sit at `count + 1` onwards. */
  lemma FillTriangleAt(count: int, sides: nat, i: int)
    requires 0 <= count && count + 1 + sides <= U32_MODULUS && 0 <= i < sides
    ensures FillIndices(count, sides)[3 * i..3 * i + 3] == [count, count + 1 + i, count + 1 + (i + 1) % sides]
  {
    FanTriangleAt(U32(count + 1), sides, sides, i);
  }

  /** Without wrap-around, entry `t` of segment `i` of a stroked polygon
      drawn after `count` vertices is `count + (2 * i + idx) % (2 * sides)`
      for the `t`-th offset `idx` of `{ 0, 2, 3, 0, 3, 1 }`. */
  lemma StrokeIndexAt(count: int, sides: nat, i: int, t: int)
    requires RingDefined(sides) && 0 <= count && count + 2 * sides <= U32_MODULUS
    requires 0 <= i < sides && 0 <= t < 6
    ensures StrokeIndices(count, sides)[6 * i + t] == count + (2 * i + RING_OFFSETS[t]) % (2 * sides)
  {
    RingSegmentAt(count, sides, sides, i);
    assert StrokeIndices(count, sides)[6 * i + t] == StrokeIndices(count, sides)[6 * i..6 * i + 6][t];
    RingIndexNoWrap(count, sides, i, t);
  }

  // ----- Line: one quad -----

  /** The offsets `{ 0, 1, 3, 1, 2, 3 }` of a line quad's two triangles. */
  const QUAD_OFFSETS: seq<int> := [0, 1, 3, 1, 2, 3]

  function Quad(base: int): (r: seq<int>)
    ensures |r| == 6
  {
    seq(6, t requires 0 <= t < 6 => U32(base + QUAD_OFFSETS[t]))
  }

  /** Without wrap-around the quad is `count + {0, 1, 3, 1, 2, 3}`: the two
      triangles `(0, 1, 3)` and `(1, 2, 3)` of the four vertices appended at
      `count`. */
  lemma QuadFresh(count: int)
    requires 0 <= count && count + 4 <= U32_MODULUS
    ensures forall t :: 0 <= t < 6 ==> Quad(count)[t] == count + QUAD_OFFSETS[t]
    ensures Within(Quad(count), count, count + 4)
  {
  }
}
