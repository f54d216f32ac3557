/** The row-major 2D grid of src/frame.hpp: a vector of `size.x * size.y`
    cells, with cell `(i, j)` stored at `i + size.x * j`. The version of
    `Grid2D` in src/graphics/core.hpp shares this layout and the lemmas on
    `Cell` below. */
module Grids {

  datatype Grid<T> = Grid(data: seq<T>, width: int, height: int)

  /** The index of cell `(i, j)`. */
  function Cell(width: int, i: int, j: int): int
  {
    i + width * j
  }

  /** The constructor `Grid2D(size, fill)`. Sizes are `i32`; a negative size
      is not given a meaning here (`std::vector` would reject it). */
  function New<T>(width: int, height: int, fill: T): (g: Grid<T>)
    requires 0 <= width && 0 <= height
    ensures g.width == width && g.height == height
    ensures |g.data| == width * height
    ensures forall k :: 0 <= k < |g.data| ==> g.data[k] == fill
  {
    Grid(seq(width * height, _ => fill), width, height)
  }

  predicate Contains<T>(g: Grid<T>, i: int, j: int)
  {
    (0 <= i && i < g.width) && (0 <= j && j < g.height)
  }

  /** A grid whose data has the length the constructor gives it. */
  predicate WellFormed<T>(g: Grid<T>)
  {
    0 <= g.width && 0 <= g.height && |g.data| == g.width * g.height
  }

  /** `get(i, j)`; the caller must pass a contained cell. */
  function Get<T>(g: Grid<T>, i: int, j: int): T
    requires WellFormed(g) && Contains(g, i, j)
  {
    CellInRange(g.width, g.height, i, j);
    g.data[Cell(g.width, i, j)]
  }

  /** A contained cell addresses an element of the data. */
  lemma CellInRange(width: int, height: int, i: int, j: int)
    requires 0 <= i < width && 0 <= j < height
    ensures 0 <= Cell(width, i, j) < width * height
  {
    assert width * j <= width * (height - 1) by {
      MulMonotone(width, j, height - 1);
    }
    assert width * (height - 1) == width * height - width;
  }

  lemma MulMonotone(a: int, b: int, c: int)
    requires 0 <= a && b <= c
    ensures a * b <= a * c
  {
    assert a * c - a * b == a * (c - b);
  }

  /** Two contained cells with the same index are the same cell: the layout
      is one-to-one. */
  lemma CellInjective(width: int, i: int, j: int, i': int, j': int)
    requires 0 <= i < width && 0 <= i' < width && 0 <= j && 0 <= j'
    requires Cell(width, i, j) == Cell(width, i', j')
    ensures i == i' && j == j'
  {
    if j < j' {
      assert width * j' - width * j == width * (j' - j);
      MulMonotone(width, 1, j' - j);
    } else if j' < j {
      assert width * j - width * j' == width * (j - j');
      MulMonotone(width, 1, j - j');
    }
  }

  /** `contains` holds exactly when the cell's index lies in the data, for a
      column inside the width: the index test alone cannot tell column
      `width` of row `j` from column 0 of row `j + 1`. */
  lemma ContainsIffInRange<T>(g: Grid<T>, i: int, j: int)
    requires WellFormed(g) && 0 <= i < g.width
    ensures Contains(g, i, j) <==> 0 <= Cell(g.width, i, j) < |g.data|
  {
    if Contains(g, i, j) {
      CellInRange(g.width, g.height, i, j);
    } else if j < 0 {
      MulMonotone(g.width, j, -1);
    } else {
      MulMonotone(g.width, g.height, j);
    }
  }

  /** A new grid reads `fill` at every contained cell. */
  lemma NewGetsFill<T>(width: int, height: int, fill: T, i: int, j: int)
    requires 0 <= i < width && 0 <= j < height
    ensures Get(New(width, height, fill), i, j) == fill
  {
    CellInRange(width, height, i, j);
  }
}
