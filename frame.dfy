/** The progressive accumulation buffer (src/graphics/frame.cpp and the
    `Frame` and `Grid2D` declarations of src/graphics/core.hpp). Every pixel
    keeps the total weight of the samples added since the last `reset` and
    their running weighted mean, updated in place; `m_final` holds the mean
    converted for display. */
module Frames {
  import opened Floats
  import opened Vectors
  import opened Grids
  import Core

  type Color = Vec3

  /** The displayable pixel; the casts to `f32` are the identity on reals. */
  datatype RGB = RGB(r: real, g: real, b: real)

  /** `RGB::from`. */
  function RGBFrom(c: Color): RGB
  {
    RGB(c[0], c[1], c[2])
  }

  /** One channel of `avg += weight * (value - avg) / (W + weight)`, for a
      cell whose samples so far weigh `W` in total. */
  function MeanChannel(avg: real, value: real, W: real, weight: real): real
    requires W + weight != 0.0
  {
    avg + weight * (value - avg) / (W + weight)
  }

  /** The update of a cell's average, channel by channel. */
  function MeanUpdate(avg: Color, value: Color, W: real, weight: real): Color
    requires W + weight != 0.0
  {
    seq(3, c requires 0 <= c < 3 => MeanChannel(avg[c], value[c], W, weight))
  }

  // ----- The weighted mean that a cell maintains -----

  /** One `add_sample` call that reached a cell. */
  datatype Contribution = Contribution(value: Color, weight: real)

  /** What a cell's summary keeps track of: the total weight of its
      contributions, and per channel the sum of `weight * value`. */
  datatype Quantity = Weight | Moment(channel: int)

  /** A contribution's share of a quantity. */
  function Part(x: Contribution, q: Quantity): real
  {
    match q
    case Weight => x.weight
    case Moment(c) => if 0 <= c < 3 then x.weight * x.value[c] else 0.0
  }

  /** The sum of a quantity over contributions. */
  function Total(s: seq<Contribution>, q: Quantity): real
  {
    if |s| == 0 then 0.0 else Total(s[..|s| - 1], q) + Part(s[|s| - 1], q)
  }

  /** A cell of total weight `W` and mean `avg` summarises `s`: `W` is the sum
      of the weights, and in each channel `avg * W` is the weighted sum of
      the values. */
  predicate Accumulates(W: real, avg: Color, s: seq<Contribution>)
  {
    W == Total(s, Weight) && forall c :: 0 <= c < 3 ==> avg[c] * W == Total(s, Moment(c))
  }

  /** Adding a contribution at the end adds its share to each sum. */
  lemma TotalAppend(s: seq<Contribution>, value: Color, weight: real, c: int)
    requires 0 <= c < 3
    ensures Total(s + [Contribution(value, weight)], Weight) == Total(s, Weight) + weight
    ensures Total(s + [Contribution(value, weight)], Moment(c)) == Total(s, Moment(c)) + weight * value[c]
  {
    assert (s + [Contribution(value, weight)])[..|s|] == s;
  }

  /** If `a * W == S` before, the update `x` gives `x * (W + w) == S + w * v`
      after. */
  lemma MeanStepChannel(a: real, v: real, W: real, w: real, S: real, x: real)
    requires W + w != 0.0 && a * W == S && x == MeanChannel(a, v, W, w)
    ensures x * (W + w) == S + w * v
  {
    var q := w * (v - a) / (W + w);
    assert q * (W + w) == w * (v - a);
    assert (a + q) * (W + w) == a * (W + w) + q * (W + w);
  }

  /** Channel `c` of the update keeps its moment. */
  lemma MeanStepAt(W: real, avg: Color, s: seq<Contribution>, value: Color, weight: real, c: int)
    requires W + weight != 0.0 && 0 <= c < 3 && Accumulates(W, avg, s)
    ensures MeanUpdate(avg, value, W, weight)[c] * (W + weight) == Total(s + [Contribution(value, weight)], Moment(c))
  {
    TotalAppend(s, value, weight, c);
    MeanStepChannel(avg[c], value[c], W, weight, Total(s, Moment(c)), MeanUpdate(avg, value, W, weight)[c]);
  }

  /** The update keeps the summary: after adding `value` with `weight`, the
      new total is the old one plus `weight`, and the new mean times the new
      total is the old weighted sum plus `weight * value`, channel by
      channel. */
  lemma MeanStep(W: real, avg: Color, s: seq<Contribution>, value: Color, weight: real)
    requires W + weight != 0.0 && Accumulates(W, avg, s)
    ensures Accumulates(W + weight, MeanUpdate(avg, value, W, weight), s + [Contribution(value, weight)])
  {
    TotalAppend(s, value, weight, 0);
    forall c | 0 <= c < 3
      ensures MeanUpdate(avg, value, W, weight)[c] * (W + weight) == Total(s + [Contribution(value, weight)], Moment(c))
    {
      MeanStepAt(W, avg, s, value, weight, c);
    }
  }

  /** A first sample (`W == 0`) sets a channel to its value. */
  lemma FirstChannel(a: real, v: real, w: real)
    requires w != 0.0
    ensures MeanChannel(a, v, 0.0, w) == v
  {
    assert w * (v - a) / w == v - a;
  }

  /** The first sample after a reset (`W == 0`) sets the mean to its value,
      whatever the mean held before. */
  lemma FirstSample(avg: Color, value: Color, weight: real)
    requires weight != 0.0
    ensures MeanUpdate(avg, value, 0.0, weight) == value
  {
    forall c | 0 <= c < 3
      ensures MeanUpdate(avg, value, 0.0, weight)[c] == value[c]
    {
      FirstChannel(avg[c], value[c], weight);
    }
  }

  /** Whenever the total is not zero, the mean is the weighted average of the
      contributions: `avg == sum(w * v) / sum(w)`. */
  lemma MeanIsWeightedAverage(W: real, avg: Color, s: seq<Contribution>)
    requires Accumulates(W, avg, s) && W != 0.0
    ensures forall c :: 0 <= c < 3 ==> avg[c] == Total(s, Moment(c)) / Total(s, Weight)
  {
    forall c | 0 <= c < 3
      ensures avg[c] == Total(s, Moment(c)) / Total(s, Weight)
    {
      Unscale(avg[c], W, Total(s, Moment(c)));
    }
  }

  lemma Unscale(a: real, W: real, t: real)
    requires W != 0.0 && a * W == t
    ensures a == t / W
  {
  }

  /** Removing contribution `m` takes its share out of the sum. */
  lemma {:induction false} TotalWithout(s: seq<Contribution>, m: int, q: Quantity)
    requires 0 <= m < |s|
    ensures Total(s, q) == Total(s[..m] + s[m + 1..], q) + Part(s[m], q)
  {
    var n := |s| - 1;
    if m < n {
      var t := s[..m] + s[m + 1..];
      TotalWithout(s[..n], m, q);
      assert s[..n][..m] + s[..n][m + 1..] == t[..|t| - 1];
      assert t[|t| - 1] == s[n];
    } else {
      assert s[..m] + s[m + 1..] == s[..n];
    }
  }

  lemma MultisetWithout<T>(s: seq<T>, m: int)
    requires 0 <= m < |s|
    ensures multiset(s[..m] + s[m + 1..]) == multiset(s) - multiset{s[m]}
  {
    assert s == s[..m] + [s[m]] + s[m + 1..];
  }

  /** The last element of `s` occurs in a rearrangement `t` of `s`, and the
      rest of `s` rearranges `t` without it. */
  lemma MatchLast<T>(s: seq<T>, t: seq<T>) returns (m: int)
    requires multiset(s) == multiset(t) && |s| > 0
    ensures 0 <= m < |t| && t[m] == s[|s| - 1]
    ensures multiset(s[..|s| - 1]) == multiset(t[..m] + t[m + 1..])
  {
    var n := |s| - 1;
    assert s[n] in multiset(t);
    m :| 0 <= m < |t| && t[m] == s[n];
    MultisetWithout(t, m);
    MultisetWithout(s, n);
    assert s[..n] + s[n + 1..] == s[..n];
  }

  /** The sums do not depend on the order in which the samples arrived: any
      rearrangement of the same contributions has the same sums. */
  lemma {:induction false} TotalReordered(s: seq<Contribution>, t: seq<Contribution>, q: Quantity)
    requires multiset(s) == multiset(t)
    ensures Total(s, q) == Total(t, q)
  {
    if |s| == 0 {
      assert |t| == |multiset(t)| == 0;
    } else {
      var m := MatchLast(s, t);
      TotalReordered(s[..|s| - 1], t[..m] + t[m + 1..], q);
      TotalWithout(t, m, q);
    }
  }

  /** Hence a mean that summarises the samples in one order summarises them
      in every order. */
  lemma AccumulatesReordered(W: real, avg: Color, s: seq<Contribution>, t: seq<Contribution>)
    requires Accumulates(W, avg, s) && multiset(s) == multiset(t)
    ensures Accumulates(W, avg, t)
  {
    TotalReordered(s, t, Weight);
    forall c | 0 <= c < 3
      ensures avg[c] * W == Total(t, Moment(c))
    {
      TotalReordered(s, t, Moment(c));
    }
  }

  // ----- The three grids as one state -----

  /** The contents of `m_weight`, `m_average` and `m_final`. */
  datatype Cells = Cells(weight: seq<real>, average: seq<Color>, final: seq<RGB>)

  predicate Sized(c: Cells, width: int, height: int)
  {
    0 <= width && 0 <= height &&
    |c.weight| == width * height && |c.average| == width * height && |c.final| == width * height
  }

  /** The guard of `add_sample`. */
  predicate InBounds(width: int, height: int, i: int, j: int)
  {
    0 <= i && i < width && 0 <= j && j < height
  }

  function WeightAt(c: Cells, width: int, height: int, i: int, j: int): real
    requires Sized(c, width, height) && InBounds(width, height, i, j)
  {
    CellInRange(width, height, i, j);
    c.weight[Cell(width, i, j)]
  }

  function AverageAt(c: Cells, width: int, height: int, i: int, j: int): Color
    requires Sized(c, width, height) && InBounds(width, height, i, j)
  {
    CellInRange(width, height, i, j);
    c.average[Cell(width, i, j)]
  }

  function FinalAt(c: Cells, width: int, height: int, i: int, j: int): RGB
    requires Sized(c, width, height) && InBounds(width, height, i, j)
  {
    CellInRange(width, height, i, j);
    c.final[Cell(width, i, j)]
  }

  /** What `add_sample` needs to stay within the reals: the division by
      `W + weight` on an in-bounds cell is not a division by zero. */
  predicate CanSample(c: Cells, width: int, height: int, i: int, j: int, weight: real)
    requires Sized(c, width, height)
  {
    InBounds(width, height, i, j) ==> WeightAt(c, width, height, i, j) + weight != 0.0
  }

  /** The grids after `add_sample(i, j, value, weight)`. */
  function Sample(c: Cells, width: int, height: int, i: int, j: int, value: Color, weight: real): (r: Cells)
    requires Sized(c, width, height) && CanSample(c, width, height, i, j, weight)
    ensures Sized(r, width, height)
  {
    if InBounds(width, height, i, j) then
      CellInRange(width, height, i, j);
      var k := Cell(width, i, j);
      var avg := MeanUpdate(c.average[k], value, c.weight[k], weight);
      Cells(c.weight[k := c.weight[k] + weight], c.average[k := avg], c.final[k := RGBFrom(avg)])
    else c
  }

  /** Out of bounds `add_sample` changes nothing. In bounds it adds `weight`
      to cell `(i, j)`'s weight, applies the mean update to its average and
      stores the converted new average in its final colour; every other cell
      of the three grids keeps its value. */
  lemma SampleCells(c: Cells, width: int, height: int, i: int, j: int, value: Color, weight: real, i': int, j': int)
    requires Sized(c, width, height) && CanSample(c, width, height, i, j, weight)
    requires InBounds(width, height, i', j')
    ensures !InBounds(width, height, i, j) ==> Sample(c, width, height, i, j, value, weight) == c
    ensures (i', j') == (i, j) ==>
              WeightAt(Sample(c, width, height, i, j, value, weight), width, height, i', j') ==
                WeightAt(c, width, height, i', j') + weight &&
              AverageAt(Sample(c, width, height, i, j, value, weight), width, height, i', j') ==
                MeanUpdate(AverageAt(c, width, height, i', j'), value, WeightAt(c, width, height, i', j'), weight) &&
              FinalAt(Sample(c, width, height, i, j, value, weight), width, height, i', j') ==
                RGBFrom(AverageAt(Sample(c, width, height, i, j, value, weight), width, height, i', j'))
    ensures (i', j') != (i, j) ==>
              WeightAt(Sample(c, width, height, i, j, value, weight), width, height, i', j') ==
                WeightAt(c, width, height, i', j') &&
              AverageAt(Sample(c, width, height, i, j, value, weight), width, height, i', j') ==
                AverageAt(c, width, height, i', j') &&
              FinalAt(Sample(c, width, height, i, j, value, weight), width, height, i', j') ==
                FinalAt(c, width, height, i', j')
  {
    CellInRange(width, height, i', j');
    if InBounds(width, height, i, j) && (i', j') != (i, j) {
      CellInRange(width, height, i, j);
      if Cell(width, i, j) == Cell(width, i', j') {
        CellInjective(width, i, j, i', j');
      }
    }
  }

  /** Cell `k` is consistent: its final colour is its converted average, and
      its weight and average summarise the contributions `h[k]` it received
      since the last reset. */
  ghost predicate CellSummarises(c: Cells, h: seq<seq<Contribution>>, k: int)
    requires 0 <= k < |c.weight| && k < |c.average| && k < |c.final| && k < |h|
  {
    c.final[k] == RGBFrom(c.average[k]) && Accumulates(c.weight[k], c.average[k], h[k])
  }

  /** The buffer's invariant on values: the grids have the frame's size and
      every cell is consistent. */
  ghost predicate Summarises(c: Cells, h: seq<seq<Contribution>>, width: int, height: int)
  {
    Sized(c, width, height) && |h| == width * height &&
    forall k :: 0 <= k < width * height ==> CellSummarises(c, h, k)
  }

  /** `add_sample` keeps cell `k'` consistent, when the contribution it
      makes is recorded. */
  lemma SampleCellSummarises(c: Cells, h: seq<seq<Contribution>>, width: int, height: int,
                             i: int, j: int, value: Color, weight: real, k': int)
    requires Summarises(c, h, width, height) && CanSample(c, width, height, i, j, weight)
    requires 0 <= k' < width * height
    ensures CellSummarises(Sample(c, width, height, i, j, value, weight), Record(h, width, height, i, j, value, weight), k')
  {
    assert CellSummarises(c, h, k');
    if InBounds(width, height, i, j) {
      CellInRange(width, height, i, j);
      var k := Cell(width, i, j);
      if k' == k {
        MeanStep(c.weight[k], c.average[k], h[k], value, weight);
      }
    }
  }

  /** `add_sample` keeps the invariant, when the contribution it makes is
      recorded. */
  lemma SampleSummarises(c: Cells, h: seq<seq<Contribution>>, width: int, height: int,
                         i: int, j: int, value: Color, weight: real)
    requires Summarises(c, h, width, height) && CanSample(c, width, height, i, j, weight)
    ensures Summarises(Sample(c, width, height, i, j, value, weight), Record(h, width, height, i, j, value, weight), width, height)
  {
    forall k' | 0 <= k' < width * height
      ensures CellSummarises(Sample(c, width, height, i, j, value, weight), Record(h, width, height, i, j, value, weight), k')
    {
      SampleCellSummarises(c, h, width, height, i, j, value, weight, k');
    }
  }

  // ----- Bilinear splatting -----

  /** Entry `i` of `wx[] = { dx, 1 - dx }`. */
  function PairWeight(d: real, i: int): real
  {
    if i == 0 then d else 1.0 - d
  }

  /** `std::modf(c * size.y)`: the fraction and the whole part of a
      coordinate scaled by the frame's height. */
  function SplitScaled(c: real, height: int): (real, int)
  {
    Modf(c * height as real)
  }

  /** Step `s` (0 to 3) of the nested loop runs inner index `StepI(s)` of
      outer index `StepJ(s)`, so that `s == 2 * j + i`. */
  function StepI(s: int): int
  {
    if s == 1 || s == 3 then 1 else 0
  }

  function StepJ(s: int): int
  {
    if s < 2 then 0 else 1
  }

  /** The cell and the weight of step `s`. Both coordinates of `uv` are
      scaled by the frame's height `size.y` and split by `std::modf`; the
      whole part, already integral, is cast to `i32`. */
  function CornerI(uv: Vec2, height: int, s: int): int
  {
    SplitScaled(uv[0], height).1 + StepI(s)
  }

  function CornerJ(uv: Vec2, height: int, s: int): int
  {
    SplitScaled(uv[1], height).1 + StepJ(s)
  }

  function CornerWeight(uv: Vec2, height: int, s: int): real
  {
    PairWeight(SplitScaled(uv[0], height).0, StepI(s)) * PairWeight(SplitScaled(uv[1], height).0, StepJ(s))
  }

  /** The loop's weight `wx[i] * wy[j]` is the weight of step `n == 2 * j + i`. */
  lemma StepWeight(uv: Vec2, height: int, i: int, j: int, n: int, wx: seq<real>, wy: seq<real>)
    requires 0 <= i < 2 && 0 <= j < 2 && n == 2 * j + i
    requires wx == [SplitScaled(uv[0], height).0, 1.0 - SplitScaled(uv[0], height).0]
    requires wy == [SplitScaled(uv[1], height).0, 1.0 - SplitScaled(uv[1], height).0]
    ensures wx[i] * wy[j] == CornerWeight(uv, height, n)
  {
    assert StepI(n) == i && StepJ(n) == j;
    assert wx[i] == PairWeight(SplitScaled(uv[0], height).0, i);
    assert wy[j] == PairWeight(SplitScaled(uv[1], height).0, j);
  }

  /** The four splatting weights sum to one. */
  lemma CornerWeightsSumToOne(uv: Vec2, height: int)
    ensures CornerWeight(uv, height, 0) + CornerWeight(uv, height, 1) +
            CornerWeight(uv, height, 2) + CornerWeight(uv, height, 3) == 1.0
  {
    var dx := SplitScaled(uv[0], height).0;
    var dy := SplitScaled(uv[1], height).0;
    assert dx * dy + (1.0 - dx) * dy == dy;
    assert dx * (1.0 - dy) + (1.0 - dx) * (1.0 - dy) == 1.0 - dy;
  }

  /** The four steps address four different cells: `(pi, pj)`, `(pi + 1, pj)`,
      `(pi, pj + 1)` and `(pi + 1, pj + 1)`, in that order. */
  lemma CornersDistinct(uv: Vec2, height: int, s: int, s': int)
    requires 0 <= s < 4 && 0 <= s' < 4 && s != s'
    ensures (CornerI(uv, height, s), CornerJ(uv, height, s)) != (CornerI(uv, height, s'), CornerJ(uv, height, s'))
  {
  }

  /** What `add_bilinear` needs: each of its four samples can be taken. */
  predicate CanBilinear(c: Cells, width: int, height: int, uv: Vec2)
    requires Sized(c, width, height)
  {
    forall s :: 0 <= s < 4 ==>
      CanSample(c, width, height, CornerI(uv, height, s), CornerJ(uv, height, s), CornerWeight(uv, height, s))
  }

  /** The grids after the first `n` steps of `add_bilinear(uv, value)`. */
  function BilinearSteps(c: Cells, width: int, height: int, uv: Vec2, value: Color, n: int): (r: Cells)
    requires 0 <= n <= 4 && Sized(c, width, height) && CanBilinear(c, width, height, uv)
    ensures Sized(r, width, height)
    decreases n, 1
  {
    if n == 0 then c
    else
      BilinearKeepsLater(c, width, height, uv, value, n - 1);
      Sample(BilinearSteps(c, width, height, uv, value, n - 1), width, height,
             CornerI(uv, height, n - 1), CornerJ(uv, height, n - 1), value, CornerWeight(uv, height, n - 1))
  }

  /** The steps taken so far leave the weights of the cells of the steps
      still to come as they were. */
  lemma {:induction false} BilinearKeepsLater(c: Cells, width: int, height: int, uv: Vec2, value: Color, n: int)
    requires 0 <= n <= 4 && Sized(c, width, height) && CanBilinear(c, width, height, uv)
    ensures forall s :: n <= s < 4 && InBounds(width, height, CornerI(uv, height, s), CornerJ(uv, height, s)) ==>
              WeightAt(BilinearSteps(c, width, height, uv, value, n), width, height, CornerI(uv, height, s), CornerJ(uv, height, s)) ==
              WeightAt(c, width, height, CornerI(uv, height, s), CornerJ(uv, height, s))
    decreases n, 2
  {
    if n > 0 {
      BilinearKeepsLater(c, width, height, uv, value, n - 1);
      var prev := BilinearSteps(c, width, height, uv, value, n - 1);
      forall s | n <= s < 4 && InBounds(width, height, CornerI(uv, height, s), CornerJ(uv, height, s))
        ensures WeightAt(BilinearSteps(c, width, height, uv, value, n), width, height, CornerI(uv, height, s), CornerJ(uv, height, s)) ==
                WeightAt(prev, width, height, CornerI(uv, height, s), CornerJ(uv, height, s))
      {
        CornersDistinct(uv, height, n - 1, s);
        SampleCells(prev, width, height, CornerI(uv, height, n - 1), CornerJ(uv, height, n - 1), value,
                    CornerWeight(uv, height, n - 1), CornerI(uv, height, s), CornerJ(uv, height, s));
      }
    }
  }

  /** A cell's contributions after `add_sample(i, j, value, weight)`: an
      in-bounds cell gains one, the others are unchanged. */
  ghost function Record(h: seq<seq<Contribution>>, width: int, height: int, i: int, j: int,
                        value: Color, weight: real): (r: seq<seq<Contribution>>)
    requires 0 <= width && 0 <= height && |h| == width * height
    ensures |r| == |h|
  {
    if InBounds(width, height, i, j) then
      CellInRange(width, height, i, j);
      h[Cell(width, i, j) := h[Cell(width, i, j)] + [Contribution(value, weight)]]
    else h
  }

  /** The contributions after the first `n` steps of `add_bilinear`. */
  ghost function RecordBilinear(h: seq<seq<Contribution>>, width: int, height: int, uv: Vec2,
                                value: Color, n: int): (r: seq<seq<Contribution>>)
    requires 0 <= n <= 4 && 0 <= width && 0 <= height && |h| == width * height
    ensures |r| == |h|
    decreases n
  {
    if n == 0 then h
    else Record(RecordBilinear(h, width, height, uv, value, n - 1), width, height,
                CornerI(uv, height, n - 1), CornerJ(uv, height, n - 1), value, CornerWeight(uv, height, n - 1))
  }

  /** Step `n` of `add_bilinear` can be taken, and takes the grids from
      step `n` to step `n + 1`. */
  lemma BilinearNext(c: Cells, width: int, height: int, uv: Vec2, value: Color, n: int)
    requires 0 <= n < 4 && Sized(c, width, height) && CanBilinear(c, width, height, uv)
    ensures CanSample(BilinearSteps(c, width, height, uv, value, n), width, height,
                      CornerI(uv, height, n), CornerJ(uv, height, n), CornerWeight(uv, height, n))
    ensures BilinearSteps(c, width, height, uv, value, n + 1) ==
              Sample(BilinearSteps(c, width, height, uv, value, n), width, height,
                     CornerI(uv, height, n), CornerJ(uv, height, n), value, CornerWeight(uv, height, n))
  {
    BilinearKeepsLater(c, width, height, uv, value, n);
    assert CanSample(c, width, height, CornerI(uv, height, n), CornerJ(uv, height, n), CornerWeight(uv, height, n));
  }

  lemma RecordNext(h: seq<seq<Contribution>>, width: int, height: int, uv: Vec2, value: Color, n: int)
    requires 0 <= n < 4 && 0 <= width && 0 <= height && |h| == width * height
    ensures RecordBilinear(h, width, height, uv, value, n + 1) ==
              Record(RecordBilinear(h, width, height, uv, value, n), width, height,
                     CornerI(uv, height, n), CornerJ(uv, height, n), value, CornerWeight(uv, height, n))
  {
  }

  /** The steps of `add_bilinear` keep the summary. */
  lemma {:induction false} BilinearSummarises(c: Cells, h: seq<seq<Contribution>>, width: int, height: int,
                                             uv: Vec2, value: Color, n: int)
    requires 0 <= n <= 4 && Summarises(c, h, width, height) && CanBilinear(c, width, height, uv)
    ensures Summarises(BilinearSteps(c, width, height, uv, value, n), RecordBilinear(h, width, height, uv, value, n), width, height)
  {
    if n > 0 {
      BilinearSummarises(c, h, width, height, uv, value, n - 1);
      BilinearNext(c, width, height, uv, value, n - 1);
      RecordNext(h, width, height, uv, value, n - 1);
      SampleSummarises(BilinearSteps(c, width, height, uv, value, n - 1), RecordBilinear(h, width, height, uv, value, n - 1),
                       width, height, CornerI(uv, height, n - 1), CornerJ(uv, height, n - 1), value, CornerWeight(uv, height, n - 1));
    }
  }

  /** Inner step `i` of outer step `j` of `add_bilinear`, stated in the
      loop's own terms: the sample `add_sample(pi + i, pj + j, value,
      wx[i] * wy[j])` can be taken, and it is step `2 * j + i` of both the
      grids and the contributions. */
  lemma BilinearLoopStep(c: Cells, h: seq<seq<Contribution>>, r: Cells, hr: seq<seq<Contribution>>,
                         width: int, height: int, uv: Vec2, value: Color,
                         i: int, j: int, n: int, pi: int, pj: int, wx: seq<real>, wy: seq<real>)
    requires 0 <= i < 2 && 0 <= j < 2 && n == 2 * j + i
    requires pi == SplitScaled(uv[0], height).1 && pj == SplitScaled(uv[1], height).1
    requires wx == [SplitScaled(uv[0], height).0, 1.0 - SplitScaled(uv[0], height).0]
    requires wy == [SplitScaled(uv[1], height).0, 1.0 - SplitScaled(uv[1], height).0]
    requires Summarises(c, h, width, height) && CanBilinear(c, width, height, uv)
    requires r == BilinearSteps(c, width, height, uv, value, n)
    requires hr == RecordBilinear(h, width, height, uv, value, n)
    ensures Summarises(r, hr, width, height) && CanSample(r, width, height, pi + i, pj + j, wx[i] * wy[j])
    ensures Sample(r, width, height, pi + i, pj + j, value, wx[i] * wy[j]) ==
              BilinearSteps(c, width, height, uv, value, n + 1)
    ensures Record(hr, width, height, pi + i, pj + j, value, wx[i] * wy[j]) ==
              RecordBilinear(h, width, height, uv, value, n + 1)
  {
    StepWeight(uv, height, i, j, n, wx, wy);
    assert CornerI(uv, height, n) == pi + i && CornerJ(uv, height, n) == pj + j;
    assert CornerWeight(uv, height, n) == wx[i] * wy[j];
    BilinearNext(c, width, height, uv, value, n);
    RecordNext(h, width, height, uv, value, n);
    BilinearSummarises(c, h, width, height, uv, value, n);
  }

  // ----- The buffer itself -----

  /** `Grid2D<T>` of src/graphics/core.hpp: a fixed-size row-major array. */
  class Grid2D<T> {
    const width: int
    const height: int
    const data: array<T>

    /** `Grid2D(size, fill)`. */
    constructor(width: int, height: int, fill: T)
      requires 0 <= width && 0 <= height
      ensures this.width == width && this.height == height
      ensures fresh(data) && data.Length == width * height
      ensures forall k :: 0 <= k < data.Length ==> data[k] == fill
    {
      this.width := width;
      this.height := height;
      data := new T[width * height](_ => fill);
    }

    /** `get(i, j)` reads cell `i + size.x * j`. */
    function Get(i: int, j: int): (r: T)
      reads data
      requires data.Length == width * height && 0 <= i < width && 0 <= j < height
      ensures 0 <= Cell(width, i, j) < data.Length && r == data[Cell(width, i, j)]
    {
      CellInRange(width, height, i, j);
      data[Cell(width, i, j)]
    }
  }

  class Frame {
    const width: int
    const height: int
    const weight: Grid2D<real>
    const average: Grid2D<Color>
    const final: Grid2D<RGB>
    /** The contributions each cell has received since the last `reset`. */
    ghost var history: seq<seq<Contribution>>

    /** The three grids have the frame's size. */
    ghost predicate Shaped()
    {
      0 <= width && 0 <= height &&
      weight.width == width && weight.height == height && weight.data.Length == width * height &&
      average.width == width && average.height == height && average.data.Length == width * height &&
      final.width == width && final.height == height && final.data.Length == width * height
    }

    /** The buffer's invariant: every final colour is its cell's converted
        average, and every cell's weight and average summarise the
        contributions it received since the last reset. */
    ghost predicate Valid()
      reads this, weight.data, average.data, final.data
    {
      Shaped() && Summarises(State(), history, width, height)
    }

    ghost function State(): (c: Cells)
      reads this, weight.data, average.data, final.data
    {
      Cells(weight.data[..], average.data[..], final.data[..])
    }

    /** The grid part of `Frame(size)`: zero weights, black averages and
        black final colours. */
    constructor(width: int, height: int)
      requires 0 <= width && 0 <= height
      ensures this.width == width && this.height == height && Valid()
      ensures fresh(weight.data) && fresh(average.data) && fresh(final.data)
      ensures forall k :: 0 <= k < width * height ==>
                weight.data[k] == 0.0 && average.data[k] == Core.BLACK && final.data[k] == RGB(0.0, 0.0, 0.0)
      ensures forall k :: 0 <= k < width * height ==> history[k] == []
    {
      this.width := width;
      this.height := height;
      weight := new Grid2D(width, height, 0.0);
      average := new Grid2D(width, height, Core.BLACK);
      final := new Grid2D(width, height, RGB(0.0, 0.0, 0.0));
      history := seq(width * height, _ => []);
      new;
      forall k | 0 <= k < width * height
        ensures CellSummarises(State(), history, k)
      {
        assert final.data[k] == RGBFrom(average.data[k]);
      }
    }

    /** `reset`: every weight becomes zero, which starts a new mean in every
        cell; averages and final colours are left as they are. */
    method Reset()
      requires Valid()
      modifies this, weight.data
      ensures Valid()
      ensures forall k :: 0 <= k < weight.data.Length ==> weight.data[k] == 0.0
      ensures unchanged(average.data) && unchanged(final.data)
      ensures forall k :: 0 <= k < width * height ==> history[k] == []
    {
      var i := 0;
      while i < weight.data.Length
        invariant 0 <= i <= weight.data.Length
        invariant forall k :: 0 <= k < i ==> weight.data[k] == 0.0
      {
        weight.data[i] := 0.0;
        i := i + 1;
      }
      history := seq(width * height, _ => []);
      forall k | 0 <= k < width * height
        ensures CellSummarises(State(), history, k)
      {
        assert CellSummarises(old(State()), old(history), k);
      }
    }

    /** `add_sample(i, j, value, weight)`: the grids become
        `Sample(old grids, ...)`, and an in-bounds cell records one more
        contribution. */
    method AddSample(i: int, j: int, value: Color, w: real)
      requires Valid() && CanSample(State(), width, height, i, j, w)
      modifies this, weight.data, average.data, final.data
      ensures Valid()
      ensures State() == Sample(old(State()), width, height, i, j, value, w)
      ensures history == Record(old(history), width, height, i, j, value, w)
    {
      ghost var c0, h0 := State(), history;
      SampleSummarises(c0, h0, width, height, i, j, value, w);
      if 0 <= i && i < width && 0 <= j && j < height {
        var W := weight.Get(i, j);
        CellInRange(width, height, i, j);
        var k := Cell(width, i, j);
        var avg := MeanUpdate(average.data[k], value, W, w);
        weight.data[k] := weight.data[k] + w;
        average.data[k] := avg;
        final.data[k] := RGBFrom(avg);
        history := history[k := history[k] + [Contribution(value, w)]];
        assert weight.data[..] == c0.weight[k := c0.weight[k] + w];
        assert average.data[..] == c0.average[k := avg];
        assert final.data[..] == c0.final[k := RGBFrom(avg)];
      }
    }

    /** `add_bilinear(uv, value)`: the four `add_sample` calls in loop order. */
    method AddBilinear(uv: Vec2, value: Color)
      requires Valid() && CanBilinear(State(), width, height, uv)
      modifies this, weight.data, average.data, final.data
      ensures Valid()
      ensures State() == BilinearSteps(old(State()), width, height, uv, value, 4)
      ensures history == RecordBilinear(old(history), width, height, uv, value, 4)
    {
      var splitX := SplitScaled(uv[0], height);
      var splitY := SplitScaled(uv[1], height);
      var dx, pi := splitX.0, splitX.1;
      var dy, pj := splitY.0, splitY.1;
      var wx := [dx, 1.0 - dx];
      var wy := [dy, 1.0 - dy];
      ghost var start, h0 := State(), history;
      for j := 0 to 2
        invariant Valid()
        invariant State() == BilinearSteps(start, width, height, uv, value, 2 * j)
        invariant history == RecordBilinear(h0, width, height, uv, value, 2 * j)
      {
        AddRow(uv, value, j, pi, pj, wx, wy, start, h0);
      }
    }

    /** One run of the inner loop's body: corner `n == 2 * j + i`. */
    method AddCorner(uv: Vec2, value: Color, i: int, j: int, ghost n: int, pi: int, pj: int, wx: seq<real>, wy: seq<real>,
                     ghost start: Cells, ghost h0: seq<seq<Contribution>>)
      requires 0 <= i < 2 && 0 <= j < 2 && n == 2 * j + i
      requires pi == SplitScaled(uv[0], height).1 && pj == SplitScaled(uv[1], height).1
      requires wx == [SplitScaled(uv[0], height).0, 1.0 - SplitScaled(uv[0], height).0]
      requires wy == [SplitScaled(uv[1], height).0, 1.0 - SplitScaled(uv[1], height).0]
      requires Valid() && Summarises(start, h0, width, height) && CanBilinear(start, width, height, uv)
      requires State() == BilinearSteps(start, width, height, uv, value, n)
      requires history == RecordBilinear(h0, width, height, uv, value, n)
      modifies this, weight.data, average.data, final.data
      ensures Valid()
      ensures State() == BilinearSteps(start, width, height, uv, value, n + 1)
      ensures history == RecordBilinear(h0, width, height, uv, value, n + 1)
    {
      BilinearLoopStep(start, h0, State(), history, width, height, uv, value, i, j, n, pi, pj, wx, wy);
      AddSample(pi + i, pj + j, value, wx[i] * wy[j]);
    }

    /** The inner loop of `add_bilinear` for row `j`: corners `2 * j` and
        `2 * j + 1`. */
    method AddRow(uv: Vec2, value: Color, j: int, pi: int, pj: int, wx: seq<real>, wy: seq<real>,
                  ghost start: Cells, ghost h0: seq<seq<Contribution>>)
      requires 0 <= j < 2
      requires pi == SplitScaled(uv[0], height).1 && pj == SplitScaled(uv[1], height).1
      requires wx == [SplitScaled(uv[0], height).0, 1.0 - SplitScaled(uv[0], height).0]
      requires wy == [SplitScaled(uv[1], height).0, 1.0 - SplitScaled(uv[1], height).0]
      requires Valid() && Summarises(start, h0, width, height) && CanBilinear(start, width, height, uv)
      requires State() == BilinearSteps(start, width, height, uv, value, 2 * j)
      requires history == RecordBilinear(h0, width, height, uv, value, 2 * j)
      modifies this, weight.data, average.data, final.data
      ensures Valid()
      ensures State() == BilinearSteps(start, width, height, uv, value, 2 * j + 2)
      ensures history == RecordBilinear(h0, width, height, uv, value, 2 * j + 2)
    {
      ghost var n := 2 * j;
      for i := 0 to 2
        invariant n == 2 * j + i
        invariant Valid()
        invariant State() == BilinearSteps(start, width, height, uv, value, n)
        invariant history == RecordBilinear(h0, width, height, uv, value, n)
      {
        AddCorner(uv, value, i, j, n, pi, pj, wx, wy, start, h0);
        n := n + 1;
      }
      assert n == 2 * j + 2;
    }
  }
}
