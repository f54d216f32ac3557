/** The earlier canvas of src/canvas.hpp and src/canvas.cpp: the same
    triangulation into a vertex and an index buffer as the newer canvas,
    but with RGBA colours, a line width used as the cap radius, a fixed 256
    sides for every circle, and buffers emptied by `draw` after the upload.
    Positions are not stored with the vertices; the rim offsets
    `polygon_interior` computes are modelled separately by `RimOffset`. */
module LegacyCanvas {
  import opened Vectors
  import opened Triangulation

  /** `Style`: fill and stroke as RGBA colours, and the line width. */
  datatype Style = Style(fill: Vec, stroke: Vec, width: real)

  /** The member initialisers of `Style`: opaque white fill, transparent
      black stroke, width 0.01. */
  const DEFAULT_STYLE: Style := Style([1.0, 1.0, 1.0, 1.0], [0.0, 0.0, 0.0, 0.0], 0.01)

  /** `circle_sides(radius)` ignores its radius: every circle and every cap
      has 256 sides. */
  const CIRCLE_SIDES: nat := 256

  /** `complex_mul(a, b)`: `a` and `b` multiplied as complex numbers. */
  function ComplexMul(a: Vec2, b: Vec2): (r: Vec2)
  {
    [a[0] * b[0] - a[1] * b[1], a[0] * b[1] + a[1] * b[0]]
  }

  /** `complex_mul` agrees with `Vector2::rotate`, is commutative, and
      multiplies squared lengths, so a unit rotor keeps a length. */
  lemma ComplexMulNorm(a: Vec2, b: Vec2)
    ensures ComplexMul(a, b) == Rotate(a, b) == ComplexMul(b, a)
    ensures NormSquared(ComplexMul(a, b)) == NormSquared(a) * NormSquared(b)
    ensures NormSquared(b) == 1.0 ==> NormSquared(ComplexMul(a, b)) == NormSquared(a)
  {
    RotateNorm(a, b);
  }

  /** The offset `rad` of rim vertex `i` from the centre in
      `polygon_interior`: `start` multiplied by `rotor` `i` times. */
  function RimOffset(start: Vec2, rotor: Vec2, i: nat): Vec2
  {
    if i == 0 then start else ComplexMul(RimOffset(start, rotor, i - 1), rotor)
  }

  /** With a unit rotor (`(cos a, sin a)` in exact arithmetic) every rim
      vertex is as far from the centre as the first, `(radius, 0)`: the
      polygon is inscribed in the circle of that radius. */
  lemma {:induction false} RimOnCircle(radius: real, rotor: Vec2, i: nat)
    requires NormSquared(rotor) == 1.0
    ensures NormSquared(RimOffset([radius, 0.0], rotor, i)) == radius * radius
  {
    if i == 0 {
      Dot2([radius, 0.0], [radius, 0.0]);
    } else {
      RimOnCircle(radius, rotor, i - 1);
      ComplexMulNorm(RimOffset([radius, 0.0], rotor, i - 1), rotor);
    }
  }

  /** The number of vertices a cap appends: a filled polygon's centre and
      rim when the cap is drawn, nothing otherwise. */
  function CapCount(cap: bool): nat
  {
    if cap then CIRCLE_SIDES + 1 else 0
  }

  function CapVertices(color: Vec, cap: bool): (r: seq<Vertex>)
    ensures |r| == CapCount(cap)
  {
    if cap then Repeat(color, CIRCLE_SIDES + 1) else []
  }

  function CapIndices(count: int, cap: bool): seq<int>
  {
    if cap then FillIndices(count, CIRCLE_SIDES) else []
  }

  /** The vertices of `line`'s caps: the cap at `a` if `cap_a`, then the cap
      at `b` if `cap_b`. */
  function CapsVertices(color: Vec, capA: bool, capB: bool): (r: seq<Vertex>)
    ensures |r| == CapCount(capA) + CapCount(capB)
  {
    CapVertices(color, capA) + CapVertices(color, capB)
  }

  /** The indices of `line`'s caps when they start after `count` vertices. */
  function CapsIndices(count: int, capA: bool, capB: bool): seq<int>
  {
    CapIndices(count, capA) + CapIndices(count + CapCount(capA), capB)
  }

  /** The vertices `line(a, b, args)` appends: four for the quad, then the
      caps. */
  function LineVertices(color: Vec, capA: bool, capB: bool): (r: seq<Vertex>)
    ensures |r| == 4 + CapCount(capA) + CapCount(capB)
  {
    Repeat(color, 4) + CapsVertices(color, capA, capB)
  }

  /** The indices `line` appends after `count` vertices. */
  function LineIndices(count: int, capA: bool, capB: bool): seq<int>
  {
    Quad(U32(count)) + CapsIndices(count + 4, capA, capB)
  }

  /** The fan `circle` draws in the fill colour when `args.fill`. */
  function CircleFillVertices(style: Style, fill: bool): (r: seq<Vertex>)
    ensures |r| == if fill then CIRCLE_SIDES + 1 else 0
  {
    if fill then Repeat(style.fill, CIRCLE_SIDES + 1) else []
  }

  function CircleFillIndices(count: int, fill: bool): seq<int>
  {
    if fill then FillIndices(count, CIRCLE_SIDES) else []
  }

  /** The ring `circle` draws in the stroke colour when `args.stroke`. */
  function CircleStrokeVertices(style: Style, stroke: bool): (r: seq<Vertex>)
    ensures |r| == if stroke then 2 * CIRCLE_SIDES else 0
  {
    if stroke then Repeat(style.stroke, 2 * CIRCLE_SIDES) else []
  }

  function CircleStrokeIndices(count: int, stroke: bool): seq<int>
  {
    if stroke then StrokeIndices(count, CIRCLE_SIDES) else []
  }

  /** The vertices `circle(pos, radius, args)` appends. */
  function CircleVertices(style: Style, fill: bool, stroke: bool): (r: seq<Vertex>)
    ensures |r| == (if fill then CIRCLE_SIDES + 1 else 0) + (if stroke then 2 * CIRCLE_SIDES else 0)
  {
    CircleFillVertices(style, fill) + CircleStrokeVertices(style, stroke)
  }

  /** The indices `circle` appends after `count` vertices; the ring's first
      vertex follows the fan's. */
  function CircleIndices(count: int, fill: bool, stroke: bool): seq<int>
  {
    CircleFillIndices(count, fill) + CircleStrokeIndices(count + (if fill then CIRCLE_SIDES + 1 else 0), stroke)
  }

  /** A cap refers only to its own vertices. */
  lemma CapIndicesFresh(count: int, cap: bool)
    requires 0 <= count && count + CapCount(cap) <= U32_MODULUS
    ensures |CapIndices(count, cap)| == if cap then 3 * CIRCLE_SIDES else 0
    ensures Within(CapIndices(count, cap), count, count + CapCount(cap))
  {
    if cap {
      FillIndicesFresh(count, CIRCLE_SIDES);
    }
  }

  /** The caps of a line refer only to the cap vertices. */
  lemma CapsIndicesFresh(count: int, capA: bool, capB: bool)
    requires 0 <= count && count + CapCount(capA) + CapCount(capB) <= U32_MODULUS
    ensures |CapsIndices(count, capA, capB)| == (if capA then 3 * CIRCLE_SIDES else 0) + (if capB then 3 * CIRCLE_SIDES else 0)
    ensures Within(CapsIndices(count, capA, capB), count, count + CapCount(capA) + CapCount(capB))
  {
    var mid := count + CapCount(capA);
    var hi := mid + CapCount(capB);
    var a, b := CapIndices(count, capA), CapIndices(mid, capB);
    assert CapsIndices(count, capA, capB) == a + b;
    CapIndicesFresh(count, capA);
    CapIndicesFresh(mid, capB);
    WithinWiden(a, count, mid, count, hi);
    WithinWiden(b, mid, hi, count, hi);
    WithinConcat(a, b, count, hi);
  }

  /** `line` appends six indices for the quad and `3 * 256` for each cap
      drawn, and every one refers to a vertex it appended, as long as the
      vertex count stays within `u32`. */
  lemma LineIndicesFresh(count: int, color: Vec, capA: bool, capB: bool)
    requires 0 <= count && count + |LineVertices(color, capA, capB)| <= U32_MODULUS
    ensures |LineIndices(count, capA, capB)| ==
              6 + (if capA then 3 * CIRCLE_SIDES else 0) + (if capB then 3 * CIRCLE_SIDES else 0)
    ensures Within(LineIndices(count, capA, capB), count, count + |LineVertices(color, capA, capB)|)
  {
    var hi := count + 4 + CapCount(capA) + CapCount(capB);
    QuadFresh(count);
    CapsIndicesFresh(count + 4, capA, capB);
    WithinWiden(Quad(count), count, count + 4, count, hi);
    WithinConcat(Quad(count), CapsIndices(count + 4, capA, capB), count, hi);
  }

  /** `circle` appends `3 * 256` indices for the fill and `6 * 256` for the
      stroke, each only when asked for, and every one refers to a vertex it
      appended, as long as the vertex count stays within `u32`. */
  lemma CircleIndicesFresh(style: Style, count: int, fill: bool, stroke: bool)
    requires 0 <= count && count + |CircleVertices(style, fill, stroke)| <= U32_MODULUS
    ensures |CircleIndices(count, fill, stroke)| ==
              (if fill then 3 * CIRCLE_SIDES else 0) + (if stroke then 6 * CIRCLE_SIDES else 0)
    ensures Within(CircleIndices(count, fill, stroke), count, count + |CircleVertices(style, fill, stroke)|)
  {
    var mid := count + |CircleFillVertices(style, fill)|;
    var hi := mid + |CircleStrokeVertices(style, stroke)|;
    if fill {
      FillIndicesFresh(count, CIRCLE_SIDES);
    }
    if stroke {
      StrokeIndicesFresh(mid, CIRCLE_SIDES);
    }
    WithinWiden(CircleFillIndices(count, fill), count, mid, count, hi);
    WithinWiden(CircleStrokeIndices(mid, stroke), mid, hi, count, hi);
    WithinConcat(CircleFillIndices(count, fill), CircleStrokeIndices(mid, stroke), count, hi);
  }

  /** `circle` honours `fill` and `stroke` independently: what it draws is
      what a fill-only circle draws followed by what a stroke-only circle
      draws at the vertex count the first one leaves. */
  lemma CircleIndependent(style: Style, count: int, fill: bool, stroke: bool)
    ensures CircleVertices(style, fill, stroke) ==
              CircleVertices(style, fill, false) + CircleVertices(style, false, stroke)
    ensures CircleIndices(count, fill, stroke) ==
              CircleIndices(count, fill, false) +
              CircleIndices(count + |CircleVertices(style, fill, false)|, false, stroke)
  {
    var fv, sv := CircleFillVertices(style, fill), CircleStrokeVertices(style, stroke);
    var mid := count + |fv|;
    var fi, si := CircleFillIndices(count, fill), CircleStrokeIndices(mid, stroke);
    assert CircleVertices(style, fill, false) == fv + [] == fv;
    assert CircleVertices(style, false, stroke) == [] + sv == sv;
    assert CircleIndices(count, fill, false) == fi + [] == fi;
    assert CircleIndices(mid, false, stroke) == [] + si == si;
  }

  class Canvas {
    var style: Style
    var vertices: seq<Vertex>
    var indices: seq<int>

    /** The buffer part of `Canvas()`: the default style and empty buffers
        (the GL program and vertex array are not part of this model). */
    constructor()
      ensures style == DEFAULT_STYLE && vertices == [] && indices == []
    {
      style := DEFAULT_STYLE;
      vertices := [];
      indices := [];
    }

    /** `draw`: after the upload and the draw call, both buffers are
        emptied; the style stays. */
    method Draw()
      modifies this
      ensures vertices == [] && indices == [] && style == old(style)
    {
      vertices := [];
      indices := [];
    }

    /** `polygon_interior(pos, radius, sides, color)`: the centre vertex,
        then one rim vertex and one triangle per side. */
    method PolygonInterior(sides: nat, color: Vec)
      requires sides < U32_MODULUS
      modifies this
      ensures style == old(style)
      ensures vertices == old(vertices) + Repeat(color, sides + 1)
      ensures indices == old(indices) + FillIndices(|old(vertices)|, sides)
    {
      RepeatSnoc(vertices, color, 0);
      vertices := vertices + [Vertex(color)];
      var base := U32(|vertices|);
      for i := 0 to sides
        invariant style == old(style)
        invariant vertices == old(vertices) + Repeat(color, i + 1)
        invariant indices == old(indices) + Fan(base, sides, i)
      {
        RepeatSnoc(old(vertices), color, i + 1);
        FanSnoc(old(indices), base, sides, i);
        AppendRim(base, sides, i, color);
      }
    }

    /** The loop body of `polygon_interior`: rim vertex `i` and its
        triangle. */
    method AppendRim(base: int, sides: nat, i: int, color: Vec)
      requires 0 < sides
      modifies this
      ensures style == old(style)
      ensures vertices == old(vertices) + [Vertex(color)]
      ensures indices == old(indices) + Triangle(base, sides, i)
    {
      vertices := vertices + [Vertex(color)];
      indices := indices + [U32(base - 1), U32(base + i), U32(base + (i + 1) % sides)];
    }

    /** `polygon_boundary(pos, radius, sides, color)`: an inner and an outer
        rim vertex (at `radius - width` and `radius + width`) and six
        indices per side. */
    method PolygonBoundary(sides: nat, color: Vec)
      requires sides < U32_MODULUS && (sides == 0 || RingDefined(sides))
      modifies this
      ensures style == old(style)
      ensures vertices == old(vertices) + Repeat(color, 2 * sides)
      ensures indices == old(indices) + StrokeIndices(|old(vertices)|, sides)
    {
      var base := U32(|vertices|);
      for i := 0 to sides
        invariant style == old(style)
        invariant vertices == old(vertices) + Repeat(color, 2 * i)
        invariant indices == old(indices) + Ring(base, sides, i)
      {
        RepeatSnoc(old(vertices), color, 2 * i);
        RepeatSnoc(old(vertices), color, 2 * i + 1);
        RingSnoc(old(indices), base, sides, i);
        vertices := vertices + [Vertex(color)];
        vertices := vertices + [Vertex(color)];
        AppendSegment(base, sides, i);
      }
    }

    /** The inner loop of `polygon_boundary`: the six indices of segment
        `i`. */
    method AppendSegment(base: int, sides: nat, i: int)
      requires RingDefined(sides)
      modifies this
      ensures style == old(style) && vertices == old(vertices)
      ensures indices == old(indices) + RingSegment(base, sides, i)
    {
      for t := 0 to 6
        invariant style == old(style) && vertices == old(vertices)
        invariant indices == old(indices) + RingSegment(base, sides, i)[..t]
      {
        assert RingSegment(base, sides, i)[..t + 1] == RingSegment(base, sides, i)[..t] + [RingIndex(base, sides, i, t)];
        indices := indices + [RingIndex(base, sides, i, t)];
      }
      assert RingSegment(base, sides, i)[..6] == RingSegment(base, sides, i);
    }

    /** The body of `line`: four vertices of colour `color` and the quad's
        two triangles over them. */
    method AppendQuad(color: Vec)
      modifies this
      ensures style == old(style)
      ensures vertices == old(vertices) + Repeat(color, 4)
      ensures indices == old(indices) + Quad(U32(|old(vertices)|))
    {
      var base := U32(|vertices|);
      assert [Vertex(color), Vertex(color), Vertex(color), Vertex(color)] == Repeat(color, 4);
      vertices := vertices + [Vertex(color), Vertex(color), Vertex(color), Vertex(color)];
      for t := 0 to 6
        invariant style == old(style) && vertices == old(vertices) + Repeat(color, 4)
        invariant indices == old(indices) + Quad(base)[..t]
      {
        assert Quad(base)[..t + 1] == Quad(base)[..t] + [U32(base + QUAD_OFFSETS[t])];
        indices := indices + [U32(base + QUAD_OFFSETS[t])];
      }
      assert Quad(base)[..6] == Quad(base);
    }

    /** One cap of `line`: a 256-sided `polygon_interior` in the stroke
        colour when asked for. */
    method LineCap(cap: bool, color: Vec)
      modifies this
      ensures style == old(style)
      ensures vertices == old(vertices) + CapVertices(color, cap)
      ensures indices == old(indices) + CapIndices(|old(vertices)|, cap)
    {
      if cap {
        PolygonInterior(CIRCLE_SIDES, color);
      } else {
        assert old(vertices) + [] == old(vertices) && old(indices) + [] == old(indices);
      }
    }

    /** The caps of `line`: one at `a` if `cap_a`, then one at `b` if
        `cap_b`. */
    method LineCaps(capA: bool, capB: bool, color: Vec)
      modifies this
      ensures style == old(style)
      ensures vertices == old(vertices) + CapsVertices(color, capA, capB)
      ensures indices == old(indices) + CapsIndices(|old(vertices)|, capA, capB)
    {
      ghost var count := |vertices|;
      LineCap(capA, color);
      ghost var v1, i1 := vertices, indices;
      LineCap(capB, color);
      assert |v1| == count + CapCount(capA);
      AppendTwo(old(vertices), v1, vertices, CapVertices(color, capA), CapVertices(color, capB));
      AppendTwo(old(indices), i1, indices, CapIndices(count, capA), CapIndices(count + CapCount(capA), capB));
    }

    /** `line(a, b, args)`: four stroke-coloured vertices and the quad's two
        triangles, then a cap of radius `width` at `a` if `args.cap_a` and
        one at `b` if `args.cap_b`. */
    method Line(capA: bool, capB: bool)
      modifies this
      ensures style == old(style)
      ensures vertices == old(vertices) + LineVertices(style.stroke, capA, capB)
      ensures indices == old(indices) + LineIndices(|old(vertices)|, capA, capB)
    {
      var color := style.stroke;
      ghost var count := |vertices|;
      AppendQuad(color);
      ghost var v1, i1 := vertices, indices;
      LineCaps(capA, capB, color);
      assert |v1| == count + 4;
      AppendTwo(old(vertices), v1, vertices, Repeat(color, 4), CapsVertices(color, capA, capB));
      AppendTwo(old(indices), i1, indices, Quad(U32(count)), CapsIndices(count + 4, capA, capB));
    }

    /** `arrow(pos, dir)`: three lines, the shaft with `LineArgs`' default
        caps and the two barbs without a cap at their shared end. The type
        `LineArgs` is not part of this model, so its defaults for `cap_a`
        and `cap_b` are the parameters `capA` and `capB`. */
    method Arrow(capA: bool, capB: bool)
      modifies this
      ensures style == old(style)
      ensures vertices == old(vertices) + LineVertices(style.stroke, capA, capB) +
                LineVertices(style.stroke, false, capB) + LineVertices(style.stroke, false, capB)
      ensures indices == old(indices) + LineIndices(|old(vertices)|, capA, capB) +
                LineIndices(|old(vertices) + LineVertices(style.stroke, capA, capB)|, false, capB) +
                LineIndices(|old(vertices) + LineVertices(style.stroke, capA, capB) +
                               LineVertices(style.stroke, false, capB)|, false, capB)
    {
      ghost var st := style;
      Line(capA, capB);
      ghost var v1, i1 := vertices, indices;
      Line(false, capB);
      ghost var v2, i2 := vertices, indices;
      Line(false, capB);
      ghost var shaft := LineVertices(st.stroke, capA, capB);
      ghost var barb := LineVertices(st.stroke, false, capB);
      AppendThree(old(vertices), v1, v2, vertices, shaft, barb, barb);
      AppendThree(old(indices), i1, i2, indices, LineIndices(|old(vertices)|, capA, capB),
                  LineIndices(|v1|, false, capB), LineIndices(|v2|, false, capB));
    }

    /** The fill half of `circle`: a 256-sided `polygon_interior` in the
        fill colour when `args.fill`. */
    method CircleFill(fill: bool)
      modifies this
      ensures style == old(style)
      ensures vertices == old(vertices) + CircleFillVertices(style, fill)
      ensures indices == old(indices) + CircleFillIndices(|old(vertices)|, fill)
    {
      if fill {
        PolygonInterior(CIRCLE_SIDES, style.fill);
      } else {
        assert old(vertices) + [] == old(vertices) && old(indices) + [] == old(indices);
      }
    }

    /** The stroke half of `circle`: a 256-sided `polygon_boundary` in the
        stroke colour when `args.stroke`. */
    method CircleStroke(stroke: bool)
      modifies this
      ensures style == old(style)
      ensures vertices == old(vertices) + CircleStrokeVertices(style, stroke)
      ensures indices == old(indices) + CircleStrokeIndices(|old(vertices)|, stroke)
    {
      if stroke {
        assert RingDefined(CIRCLE_SIDES);
        PolygonBoundary(CIRCLE_SIDES, style.stroke);
      } else {
        assert old(vertices) + [] == old(vertices) && old(indices) + [] == old(indices);
      }
    }

    /** `circle(pos, radius, args)`: the fill fan if `args.fill`, then the
        stroke ring if `args.stroke`, both with 256 sides whatever the
        radius. */
    method Circle(fill: bool, stroke: bool)
      modifies this
      ensures style == old(style)
      ensures vertices == old(vertices) + CircleVertices(style, fill, stroke)
      ensures indices == old(indices) + CircleIndices(|old(vertices)|, fill, stroke)
    {
      ghost var st := style;
      ghost var count := |vertices|;
      CircleFill(fill);
      ghost var v1, i1 := vertices, indices;
      CircleStroke(stroke);
      assert |v1| == count + (if fill then CIRCLE_SIDES + 1 else 0);
      AppendTwo(old(vertices), v1, vertices, CircleFillVertices(st, fill), CircleStrokeVertices(st, stroke));
      AppendTwo(old(indices), i1, indices, CircleFillIndices(count, fill),
                CircleStrokeIndices(count + (if fill then CIRCLE_SIDES + 1 else 0), stroke));
    }
  }
}
