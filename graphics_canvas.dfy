/** The canvas of src/graphics/core.hpp and src/graphics/canvas.cpp: shapes
    are triangulated into a vertex buffer and an index buffer that only
    grow until `clear`. Only the buffers' lengths, the vertices' colours and
    the indices are modelled; positions, the GL upload and the SVG record
    are not part of this model. */
module GraphicsCanvas {
  import opened Floats
  import opened Vectors
  import opened Triangulation

  datatype Cap = Butt | Round | Square

  datatype Style = Style(fill: Vec3, stroke: Vec3, nofill: bool, nostroke: bool, width: real)

  /** The member initialisers of `Style`: white fill, black stroke, both
      drawn, width 0.1. */
  const DEFAULT_STYLE: Style := Style([1.0, 1.0, 1.0], [0.0, 0.0, 0.0], false, false, 0.1)

  /** `64 + 256 * radius` can be converted to `u32`: the conversion truncates
      towards zero and is undefined outside `(-1, 2^32)`. */
  predicate SidesDefined(radius: real)
  {
    -1.0 < 64.0 + 256.0 * radius < U32_MODULUS as real
  }

  /** `circle_sides(radius)`: `64 + 256 * radius` truncated to `u32`, so at
      least 64 for a non-negative radius. */
  function CircleSides(radius: real): (n: int)
    requires SidesDefined(radius)
    ensures 0 <= n < U32_MODULUS
    ensures 0.0 <= radius ==> 64 <= n
    ensures 0.0 <= 64.0 + 256.0 * radius ==> n as real <= 64.0 + 256.0 * radius < n as real + 1.0
    ensures 64.0 + 256.0 * radius < 0.0 ==> n == 0
  {
    Trunc(64.0 + 256.0 * radius)
  }

  /** A larger radius never gets fewer sides. */
  lemma CircleSidesMonotone(r: real, r': real)
    requires SidesDefined(r) && SidesDefined(r') && r <= r'
    ensures CircleSides(r) <= CircleSides(r')
  {
  }

  /** A line's caps are circles of radius `0.5 * width`. */
  predicate CapDefined(style: Style)
  {
    SidesDefined(0.5 * style.width)
  }

  /** The number of sides of a round cap: `circle_sides(0.5 * width)`, so
      at least 64 for a non-negative width, and growing by 128 per unit of
      width rather than the 256 per unit of radius a circle gets. */
  function CapSides(style: Style): (n: nat)
    requires CapDefined(style)
    ensures 0.0 <= style.width ==> 64 <= n
    ensures 0.0 <= 64.0 + 128.0 * style.width ==> n as real <= 64.0 + 128.0 * style.width < n as real + 1.0
  {
    CircleSides(0.5 * style.width)
  }

  /** The vertices of `line`'s caps: for a round cap, two fans of
      `sides + 1` vertices; nothing otherwise. */
  function CapVertices(color: Vec, cap: Cap, sides: nat): (r: seq<Vertex>)
    ensures |r| == if cap == Round then 2 * (sides + 1) else 0
  {
    if cap == Round then Repeat(color, sides + 1) + Repeat(color, sides + 1) else []
  }

  /** The indices of `line`'s caps when they start after `count` vertices. */
  function CapIndices(count: int, cap: Cap, sides: nat): seq<int>
  {
    if cap == Round then FillIndices(count, sides) + FillIndices(count + sides + 1, sides) else []
  }

  /** The vertices `line` appends: the quad's four, then the caps. */
  function LineVertices(color: Vec, cap: Cap, sides: nat): (r: seq<Vertex>)
    ensures |r| == if cap == Round then 4 + 2 * (sides + 1) else 4
  {
    Repeat(color, 4) + CapVertices(color, cap, sides)
  }

  /** The indices `line` appends after `count` vertices. */
  function LineIndices(count: int, cap: Cap, sides: nat): seq<int>
  {
    Quad(U32(count)) + CapIndices(count + 4, cap, sides)
  }

  /** The fan `circle` draws in the fill colour unless `nofill`. */
  function CircleFillVertices(style: Style, sides: nat): (r: seq<Vertex>)
    ensures |r| == if style.nofill then 0 else sides + 1
  {
    if style.nofill then [] else Repeat(style.fill, sides + 1)
  }

  function CircleFillIndices(style: Style, count: int, sides: nat): seq<int>
  {
    if style.nofill then [] else FillIndices(count, sides)
  }

  /** The ring `circle` draws in the stroke colour unless `nostroke`. */
  function CircleStrokeVertices(style: Style, sides: nat): (r: seq<Vertex>)
    ensures |r| == if style.nostroke then 0 else 2 * sides
  {
    if style.nostroke then [] else Repeat(style.stroke, 2 * sides)
  }

  function CircleStrokeIndices(style: Style, count: int, sides: nat): seq<int>
    requires style.nostroke || sides == 0 || RingDefined(sides)
  {
    if style.nostroke then [] else StrokeIndices(count, sides)
  }

  /** The vertices `circle` appends: the fill fan, then the stroke ring. */
  function CircleVertices(style: Style, sides: nat): (r: seq<Vertex>)
    ensures |r| == (if style.nofill then 0 else sides + 1) + (if style.nostroke then 0 else 2 * sides)
  {
    CircleFillVertices(style, sides) + CircleStrokeVertices(style, sides)
  }

  /** The indices `circle` appends after `count` vertices; the ring's first
      vertex follows the fan's. */
  function CircleIndices(style: Style, count: int, sides: nat): seq<int>
    requires style.nostroke || sides == 0 || RingDefined(sides)
  {
    CircleFillIndices(style, count, sides) +
    CircleStrokeIndices(style, count + |CircleFillVertices(style, sides)|, sides)
  }

  /** The caps of a line refer only to the cap vertices. */
  lemma CapIndicesFresh(count: int, color: Vec, cap: Cap, sides: nat)
    requires 0 <= count && count + |CapVertices(color, cap, sides)| <= U32_MODULUS
    ensures |CapIndices(count, cap, sides)| == if cap == Round then 6 * sides else 0
    ensures Within(CapIndices(count, cap, sides), count, count + |CapVertices(color, cap, sides)|)
  {
    if cap == Round {
      var mid := count + sides + 1;
      var hi := mid + sides + 1;
      FillIndicesFresh(count, sides);
      FillIndicesFresh(mid, sides);
      WithinWiden(FillIndices(count, sides), count, mid, count, hi);
      WithinWiden(FillIndices(mid, sides), mid, hi, count, hi);
      WithinConcat(FillIndices(count, sides), FillIndices(mid, sides), count, hi);
    }
  }

  /** Every index `line` appends refers to a vertex it appended, as long as
      the vertex count stays within `u32`; it appends six indices for the
      quad and three per side of each round cap. */
  lemma LineIndicesFresh(count: int, color: Vec, cap: Cap, sides: nat)
    requires 0 <= count && count + |LineVertices(color, cap, sides)| <= U32_MODULUS
    ensures |LineIndices(count, cap, sides)| == if cap == Round then 6 + 6 * sides else 6
    ensures Within(LineIndices(count, cap, sides), count, count + |LineVertices(color, cap, sides)|)
  {
    var hi := count + |LineVertices(color, cap, sides)|;
    QuadFresh(count);
    CapIndicesFresh(count + 4, color, cap, sides);
    WithinWiden(Quad(count), count, count + 4, count, hi);
    WithinWiden(CapIndices(count + 4, cap, sides), count + 4, count + 4 + |CapVertices(color, cap, sides)|, count, hi);
    WithinConcat(Quad(count), CapIndices(count + 4, cap, sides), count, hi);
  }

  /** Every index `circle` appends refers to a vertex it appended, as long
      as the vertex count stays within `u32`. */
  lemma CircleIndicesFresh(style: Style, count: int, sides: nat)
    requires style.nostroke || sides == 0 || RingDefined(sides)
    requires 0 <= count && count + |CircleVertices(style, sides)| <= U32_MODULUS
    ensures |CircleIndices(style, count, sides)| ==
              (if style.nofill then 0 else 3 * sides) + (if style.nostroke then 0 else 6 * sides)
    ensures Within(CircleIndices(style, count, sides), count, count + |CircleVertices(style, sides)|)
  {
    var mid := count + |CircleFillVertices(style, sides)|;
    var hi := mid + |CircleStrokeVertices(style, sides)|;
    CircleFillFresh(style, count, sides);
    CircleStrokeFresh(style, mid, sides);
    WithinWiden(CircleFillIndices(style, count, sides), count, mid, count, hi);
    WithinWiden(CircleStrokeIndices(style, mid, sides), mid, hi, count, hi);
    WithinConcat(CircleFillIndices(style, count, sides), CircleStrokeIndices(style, mid, sides), count, hi);
  }

  /** The fill fan of `circle` refers only to its own vertices. */
  lemma CircleFillFresh(style: Style, count: int, sides: nat)
    requires 0 <= count && count + |CircleFillVertices(style, sides)| <= U32_MODULUS
    ensures |CircleFillIndices(style, count, sides)| == if style.nofill then 0 else 3 * sides
    ensures Within(CircleFillIndices(style, count, sides), count, count + |CircleFillVertices(style, sides)|)
  {
    if !style.nofill {
      FillIndicesFresh(count, sides);
    }
  }

  /** The stroke ring of `circle` refers only to its own vertices. */
  lemma CircleStrokeFresh(style: Style, count: int, sides: nat)
    requires style.nostroke || sides == 0 || RingDefined(sides)
    requires 0 <= count && count + |CircleStrokeVertices(style, sides)| <= U32_MODULUS
    ensures |CircleStrokeIndices(style, count, sides)| == if style.nostroke then 0 else 6 * sides
    ensures Within(CircleStrokeIndices(style, count, sides), count, count + |CircleStrokeVertices(style, sides)|)
  {
    if !style.nostroke {
      StrokeIndicesFresh(count, sides);
    }
  }

  class Canvas {
    var style: Style
    var vertices: seq<Vertex>
    var indices: seq<int>

    /** The buffer part of `Canvas()`: the default style and empty buffers
        (the GL program and vertex array are not part of this model). */
    constructor()
      ensures style == DEFAULT_STYLE && vertices == [] && indices == []
    {
      style := DEFAULT_STYLE;
      vertices := [];
      indices := [];
    }

    /** `clear`: both buffers become empty. */
    method Clear()
      modifies this
      ensures vertices == [] && indices == [] && style == old(style)
    {
      vertices := [];
      indices := [];
    }

    /** `with(fn)`: runs `fn` and then puts back the style it started with,
        whatever `fn` did to it; what `fn` drew stays. `fn` is modelled as a
        function of the canvas state. */
    method With(fn: (Style, seq<Vertex>, seq<int>) -> (Style, seq<Vertex>, seq<int>))
      modifies this
      ensures style == old(style)
      ensures vertices == fn(old(style), old(vertices), old(indices)).1
      ensures indices == fn(old(style), old(vertices), old(indices)).2
    {
      var saved := style;
      var after := fn(style, vertices, indices);
      style, vertices, indices := after.0, after.1, after.2;
      style := saved;
    }

    /** `fill_polygon(pos, radius, sides, color)`: the centre vertex, then
        one rim vertex and one triangle per side. */
    method FillPolygon(sides: nat, color: Vec)
      requires sides < U32_MODULUS
      modifies this
      ensures style == old(style)
      ensures vertices == old(vertices) + Repeat(color, sides + 1)
      ensures indices == old(indices) + FillIndices(|old(vertices)|, sides)
    {
      RepeatSnoc(vertices, color, 0);
      vertices := vertices + [Vertex(color)];
      var base := U32(|vertices|);
      for i := 0 to sides
        invariant style == old(style)
        invariant vertices == old(vertices) + Repeat(color, i + 1)
        invariant indices == old(indices) + Fan(base, sides, i)
      {
        RepeatSnoc(old(vertices), color, i + 1);
        FanSnoc(old(indices), base, sides, i);
        AppendRim(base, sides, i, color);
      }
    }

    /** The loop body of `fill_polygon`: rim vertex `i` and its triangle. */
    method AppendRim(base: int, sides: nat, i: int, color: Vec)
      requires 0 < sides
      modifies this
      ensures style == old(style)
      ensures vertices == old(vertices) + [Vertex(color)]
      ensures indices == old(indices) + Triangle(base, sides, i)
    {
      vertices := vertices + [Vertex(color)];
      indices := indices + [U32(base - 1), U32(base + i), U32(base + (i + 1) % sides)];
    }

    /** `stroke_polygon(pos, radius, sides, color)`: an inner and an outer
        rim vertex and six indices per side. */
    method StrokePolygon(sides: nat, color: Vec)
      requires sides < U32_MODULUS && (sides == 0 || RingDefined(sides))
      modifies this
      ensures style == old(style)
      ensures vertices == old(vertices) + Repeat(color, 2 * sides)
      ensures indices == old(indices) + StrokeIndices(|old(vertices)|, sides)
    {
      var base := U32(|vertices|);
      for i := 0 to sides
        invariant style == old(style)
        invariant vertices == old(vertices) + Repeat(color, 2 * i)
        invariant indices == old(indices) + Ring(base, sides, i)
      {
        RepeatSnoc(old(vertices), color, 2 * i);
        RepeatSnoc(old(vertices), color, 2 * i + 1);
        RingSnoc(old(indices), base, sides, i);
        vertices := vertices + [Vertex(color)];
        vertices := vertices + [Vertex(color)];
        AppendSegment(base, sides, i);
      }
    }

    /** The inner loop of `stroke_polygon`: the six indices of segment `i`. */
    method AppendSegment(base: int, sides: nat, i: int)
      requires RingDefined(sides)
      modifies this
      ensures style == old(style) && vertices == old(vertices)
      ensures indices == old(indices) + RingSegment(base, sides, i)
    {
      for t := 0 to 6
        invariant style == old(style) && vertices == old(vertices)
        invariant indices == old(indices) + RingSegment(base, sides, i)[..t]
      {
        assert RingSegment(base, sides, i)[..t + 1] == RingSegment(base, sides, i)[..t] + [RingIndex(base, sides, i, t)];
        indices := indices + [RingIndex(base, sides, i, t)];
      }
      assert RingSegment(base, sides, i)[..6] == RingSegment(base, sides, i);
    }

    /** The body of `line`: four vertices of colour `color` and the quad's
        two triangles over them. */
    method AppendQuad(color: Vec)
      modifies this
      ensures style == old(style)
      ensures vertices == old(vertices) + Repeat(color, 4)
      ensures indices == old(indices) + Quad(U32(|old(vertices)|))
    {
      var base := U32(|vertices|);
      assert [Vertex(color), Vertex(color), Vertex(color), Vertex(color)] == Repeat(color, 4);
      vertices := vertices + [Vertex(color), Vertex(color), Vertex(color), Vertex(color)];
      for t := 0 to 6
        invariant style == old(style) && vertices == old(vertices) + Repeat(color, 4)
        invariant indices == old(indices) + Quad(base)[..t]
      {
        assert Quad(base)[..t + 1] == Quad(base)[..t] + [U32(base + QUAD_OFFSETS[t])];
        indices := indices + [U32(base + QUAD_OFFSETS[t])];
      }
      assert Quad(base)[..6] == Quad(base);
    }

    /** The caps of `line`: `fill_polygon` at each end for a round cap,
        nothing for the others. */
    method LineCaps(cap: Cap, sides: nat, color: Vec)
      requires sides < U32_MODULUS
      modifies this
      ensures style == old(style)
      ensures vertices == old(vertices) + CapVertices(color, cap, sides)
      ensures indices == old(indices) + CapIndices(|old(vertices)|, cap, sides)
    {
      if cap == Round {
        ghost var count := |vertices|;
        FillPolygon(sides, color);
        ghost var v1, i1 := vertices, indices;
        FillPolygon(sides, color);
        assert |v1| == count + sides + 1;
        AppendTwo(old(vertices), v1, vertices, Repeat(color, sides + 1), Repeat(color, sides + 1));
        AppendTwo(old(indices), i1, indices, FillIndices(count, sides), FillIndices(count + sides + 1, sides));
      } else {
        assert old(vertices) + [] == old(vertices) && old(indices) + [] == old(indices);
      }
    }

    /** `line(a, b, cap)`: four stroke-coloured vertices and the quad's two
        triangles; a round cap adds a fan at each end, with as many sides as
        a circle of radius `0.5 * width`. A square cap only moves the ends. */
    method Line(cap: Cap)
      requires CapDefined(style)
      modifies this
      ensures style == old(style)
      ensures vertices == old(vertices) + LineVertices(style.stroke, cap, CapSides(style))
      ensures indices == old(indices) + LineIndices(|old(vertices)|, cap, CapSides(style))
    {
      var sides := CapSides(style);
      var color := style.stroke;
      ghost var count := |vertices|;
      AppendQuad(color);
      ghost var v1, i1 := vertices, indices;
      LineCaps(cap, sides, color);
      assert |v1| == count + 4;
      AppendTwo(old(vertices), v1, vertices, Repeat(color, 4), CapVertices(color, cap, sides));
      AppendTwo(old(indices), i1, indices, Quad(U32(count)), CapIndices(count + 4, cap, sides));
    }

    /** The fill half of `circle`: `fill_polygon` in the fill colour unless
        `nofill`. */
    method CircleFill(sides: nat)
      requires sides < U32_MODULUS
      modifies this
      ensures style == old(style)
      ensures vertices == old(vertices) + CircleFillVertices(style, sides)
      ensures indices == old(indices) + CircleFillIndices(style, |old(vertices)|, sides)
    {
      if !style.nofill {
        FillPolygon(sides, style.fill);
      } else {
        assert old(vertices) + [] == old(vertices) && old(indices) + [] == old(indices);
      }
    }

    /** The stroke half of `circle`: `stroke_polygon` in the stroke colour
        unless `nostroke`. */
    method CircleStroke(sides: nat)
      requires sides < U32_MODULUS && (style.nostroke || sides == 0 || RingDefined(sides))
      modifies this
      ensures style == old(style)
      ensures vertices == old(vertices) + CircleStrokeVertices(style, sides)
      ensures indices == old(indices) + CircleStrokeIndices(style, |old(vertices)|, sides)
    {
      if !style.nostroke {
        StrokePolygon(sides, style.stroke);
      } else {
        assert old(vertices) + [] == old(vertices) && old(indices) + [] == old(indices);
      }
    }

    /** `circle(pos, radius)`: a fan in the fill colour unless `nofill`, then
        a ring in the stroke colour unless `nostroke`, both with
        `circle_sides(radius)` sides. */
    method Circle(radius: real)
      requires SidesDefined(radius)
      requires style.nostroke || CircleSides(radius) == 0 || RingDefined(CircleSides(radius))
      modifies this
      ensures style == old(style)
      ensures vertices == old(vertices) + CircleVertices(style, CircleSides(radius))
      ensures indices == old(indices) + CircleIndices(style, |old(vertices)|, CircleSides(radius))
    {
      var sides := CircleSides(radius);
      ghost var st := style;
      ghost var count := |vertices|;
      CircleFill(sides);
      ghost var v1, i1 := vertices, indices;
      CircleStroke(sides);
      assert |v1| == count + |CircleFillVertices(st, sides)|;
      AppendTwo(old(vertices), v1, vertices, CircleFillVertices(st, sides), CircleStrokeVertices(st, sides));
      AppendTwo(old(indices), i1, indices, CircleFillIndices(st, count, sides),
                CircleStrokeIndices(st, count + |CircleFillVertices(st, sides)|, sides));
    }

    /** `arrow(pos, dir)` and `arrow_line(a, b)` both draw three lines with
        the default round cap; they differ only in positions. Each line's
        indices start at the vertex count the lines before it left. */
    method Arrow()
      requires CapDefined(style)
      modifies this
      ensures style == old(style)
      ensures vertices == old(vertices) + LineVertices(style.stroke, Round, CapSides(style)) +
                LineVertices(style.stroke, Round, CapSides(style)) +
                LineVertices(style.stroke, Round, CapSides(style))
      ensures indices == old(indices) + LineIndices(|old(vertices)|, Round, CapSides(style)) +
                LineIndices(|old(vertices) + LineVertices(style.stroke, Round, CapSides(style))|, Round, CapSides(style)) +
                LineIndices(|old(vertices) + LineVertices(style.stroke, Round, CapSides(style)) +
                               LineVertices(style.stroke, Round, CapSides(style))|, Round, CapSides(style))
    {
      ghost var st := style;
      Line(Round);
      ghost var v1, i1 := vertices, indices;
      Line(Round);
      ghost var v2, i2 := vertices, indices;
      Line(Round);
      ghost var lv := LineVertices(st.stroke, Round, CapSides(st));
      AppendThree(old(vertices), v1, v2, vertices, lv, lv, lv);
      AppendThree(old(indices), i1, i2, indices, LineIndices(|old(vertices)|, Round, CapSides(st)),
                  LineIndices(|v1|, Round, CapSides(st)), LineIndices(|v2|, Round, CapSides(st)));
    }
  }
}
