# PathSpace in Dafny

PathSpace is a small real-time rendering sandbox. It consists of:

- a toy path tracer: a ray is traced against a scene of planes, discs,
  spheres, diamonds and shape lists, and the collected radiance is splatted
  into a progressive frame buffer;
- a 2D vector-drawing canvas that triangulates fills and strokes into GPU
  buffers. There are two iterations of it, `src/canvas.*` and
  `src/graphics/canvas.*`;
- mouse and button edge detection.

This project models that core and proves properties of it. It has one
module per source concern:

| module | file | models |
|---|---|---|
| `Wrappers` | wrappers.dfy | `Option` and `Result`, for `nullptr` and the exception a shape without `intersect` throws |
| `Floats` | floats.dfy | IEEE-style distances (`Finite`, `Infinity`, `NaN`) with IEEE `<`; `std::modf`; the nearest-hit fold shared by `ShapeList` and the legacy `Scene` |
| `Vectors` | vector.dfy | `src/math/vector.hpp`: the compound operators as in-place array methods, and dot, normalize, unit, project, facing, rotate, perp, cross, reflect and refract |
| `Core` | core.dfy | `src/core.hpp`: `Material`, `LocalSurface`, `Intersection`, the base `Shape`, and `Integrator::pathtrace` |
| `ShapePlane`, `ShapeDisc`, `ShapeDiamond`, `ShapeSphere` | plane.dfy … sphere.dfy | the builders and `intersect` of `src/shapes/*.cpp` |
| `ShapeCollections` | shapelist.dfy | `ShapeList::intersect` over the closed set of shapes, including nested lists and the throwing base shape |
| `LegacyScene` | scene.dfy | `Scene::intersect` of `src/shapes/core.hpp` |
| `Grids`, `Frames` | grid.dfy, frame.dfy | `Grid2D` of `src/frame.hpp` and `src/graphics/core.hpp`; the frame buffer's `reset`, `add_sample` and `add_bilinear` |
| `Input` | input.dfy | `Button` and `Mouse`, which are identical in `src/gfx.hpp` and `src/graphics/core.hpp` |
| `Triangulation` | triangulation.dfy | the index arithmetic the two canvases share: `u32` wrap-around, fans, rings and quads |
| `GraphicsCanvas`, `LegacyCanvas` | graphics_canvas.dfy, legacy_canvas.dfy | the two canvases as classes whose vertex and index buffers are `seq` fields |

Floating-point numbers are Dafny `real`s. The numerical results are
therefore exact, and rounding is not modelled. `std::sqrt` is a parameter
`sqrt` that the ghost predicate `Vectors.IsSqrt` constrains to return the
non-negative root of a non-negative argument. A `NaN` distance appears
where the code produces one: the sphere's square root of a negative
discriminant. The diamond's 0/0 for an edge of zero length only feeds a
comparison, and the model states what that failed comparison does (the edge
never rejects a hit). Distances are compared with IEEE semantics. Random sampling is a parameter
too: `sample(i, surface)` gives the direction bounce `i` scatters into.

The frame buffer is a class over three `Grid2D` arrays. Its invariant
`Valid()` ties every pixel to a ghost history of the weighted samples it
received. The accumulated weight is the histories' total weight. The running
average times that weight is their total weighted value, in each channel.
The display cell is the average converted to `RGB`. The proofs show what
`add_sample` computes: the running mean is the weighted average of every
sample in a pixel's history, whatever order the samples came in.

Where the code and the system's documentation differ, the model follows the
code. The one exception is the sphere: the shape list dispatches a sphere to
the corrected `ShapeSphere.Sphere.Intersect`, so the list's member-level
statements hold for the corrected sphere, and
`ShapeCollections.ListHidesSphereNaN` shows that the list's own result is
the same with the sphere as written:

- **Sphere:** the documentation says a negative discriminant is a miss. The
  code never tests it (see Findings).
- **Diamond:** the documentation says a hit is clipped against the edge
  vectors in the diamond's own plane. The code projects the hit position
  itself, measured from the world origin, not from the diamond's centre.
  `ShapeDiamond.DiamondAwayFromOrigin` shows a diamond away from the origin
  that a ray through its centre misses.
- **Bilinear splat:** `add_bilinear` scales both coordinates by the height
  (`size.y`). It gives cell `(pi + i, pj + j)` the weight `wx[i] * wy[j]`
  with `wx = {dx, 1 - dx}`. So the cell `(pi, pj)` gets `dx * dy`, the area
  towards the cell itself rather than towards the opposite corner. The four
  weights still sum to one (`Frames.CornerWeightsSumToOne`).
- **`Canvas::clear`** calls `svg_data.clear()`. On a `std::stringstream`
  that call resets the error flags and does not empty the recorded SVG. The
  model empties only the vertex and index buffers, as the code does.
- **A sphere's `NaN` hit inside a `ShapeList`:** it never wins the
  comparison `current.dist < nearest.dist`. A list therefore behaves as if
  the sphere had missed (`ShapeCollections.ListHidesSphereNaN`).

## Model

| member | source | states |
|---|---|---|
| Floats.LessTotal | src/shapes/shapelist.cpp:18 | on non-NaN distances, IEEE `<` is a strict total order: exactly one of a < b, a == b, b < a holds |
| Floats.Trunc | src/graphics/core.hpp:145-147 | the conversion of a float to an integer truncates towards zero: n ≤ x < n + 1 for x ≥ 0, and n − 1 < x ≤ n for x < 0 |
| Floats.Modf | src/graphics/frame.cpp:64-65 | `std::modf` splits x into an integral part and a fraction that sum to x; the fraction is in [0, 1) for x ≥ 0 and in (−1, 0] for x < 0 |
| Floats.NearestIsMinimal | src/shapes/shapelist.cpp:15-21 | the nearest-hit fold never ends at NaN; its distance is ≤ the start's and ≤ every member's non-NaN distance |
| Floats.NearestSource | src/shapes/shapelist.cpp:15-21 | the fold returns the start (no member is strictly nearer) or one member k, strictly nearer than the start and than every earlier non-NaN member, so ties go to the earliest |
| Floats.NearestIgnoresFarMembers | src/shapes/shapelist.cpp:18 | replacing members whose distance is NaN or infinity by other such members does not change the fold's result |
| Floats.NearestHitsIffSome | src/shapes/shapelist.cpp:15-19 | starting from a miss at infinity, with hits exactly the finite distances, the result hits iff some member hits |
| Vectors.AddAssign | src/math/vector.hpp:20-25 | `+=` leaves the array holding the component-wise sum of its old contents and rhs |
| Vectors.SubAssign | src/math/vector.hpp:26-31 | `-=` leaves the component-wise difference |
| Vectors.MulAssign | src/math/vector.hpp:32-37 | `*=` by a vector leaves the component-wise product |
| Vectors.Plus | src/math/vector.hpp:39-42 | binary `+` returns a new vector, component k being lhs[k] + rhs[k] |
| Vectors.Minus | src/math/vector.hpp:43-46 | binary `-` returns lhs[k] − rhs[k] in every component |
| Vectors.Times | src/math/vector.hpp:47-50 | binary `*` returns lhs[k] · rhs[k] in every component |
| Vectors.AddScalarAssign | src/math/vector.hpp:53-58 | `+=` by a scalar adds it to every component |
| Vectors.SubScalarAssign | src/math/vector.hpp:59-64 | `-=` by a scalar subtracts it from every component |
| Vectors.MulScalarAssign | src/math/vector.hpp:65-70 | `*=` by a scalar scales every component |
| Vectors.DivScalarAssign | src/math/vector.hpp:71-76 | `/=` by a non-zero scalar divides every component |
| Vectors.Reversed | src/math/vector.hpp:91-97 | `reverse` returns the vector with every component negated |
| Vectors.ReverseInvolution | src/math/vector.hpp:91-100 | negating twice gives the vector back |
| Vectors.DotLoop | src/math/vector.hpp:102-108 | the loop's sum is the dot product (sum of component products), non-negative for a vector with itself |
| Vectors.DotSymmetric | src/math/vector.hpp:102-108 | a·b == b·a |
| Vectors.NormSquaredNonNegative | src/math/vector.hpp:110-112 | `norm_squared` is never negative |
| Vectors.Unit | src/math/vector.hpp:121-125 | `unit` of a non-zero vector has squared norm 1 and points along the vector: scaled by the (positive) norm it is the vector again |
| Vectors.Normalize | src/math/vector.hpp:117-120 | `normalize` replaces a non-zero vector in place by its `unit`, so its squared norm becomes 1 |
| Vectors.ProjectOntoUnit | src/math/vector.hpp:127-129 | projecting onto a unit vector keeps the component along it, and projecting again changes nothing |
| Vectors.Facing | src/math/vector.hpp:131-136 | `facing` returns v or −v; the result never points away from the direction; it is v when v·d ≥ 0 (ties included) and −v when v·d < 0 |
| Vectors.RotateNorm | src/math/vector.hpp:179-186 | rotation by complex multiplication multiplies squared lengths |
| Vectors.PerpQuarterTurn | src/math/vector.hpp:187-189 | `perp` is orthogonal to its argument, keeps its length, and applied twice negates |
| Vectors.CrossOrthogonal | src/math/vector.hpp:235-241 | the cross product is orthogonal to both factors and anti-commutative |
| Vectors.ReflectAboutUnitNormal | src/math/vector.hpp:252-255 | reflecting about a unit normal negates the component along the normal and keeps the length |
| Vectors.Refract | src/math/vector.hpp:257-267 | corrected `refract`: the zero vector on total internal reflection (k < 0) |
| Vectors.RefractIsUnit | src/math/vector.hpp:257-267 | corrected `refract` of a unit direction through a unit normal is a unit vector whenever k ≥ 0 |
| Vectors.RefractUnitIndex | src/math/vector.hpp:257-267 | with index ratio 1, corrected `refract` passes a ray entering against the normal straight through |
| Vectors.RefractAsWrittenHeadOn | src/math/vector.hpp:259-265 | for I = −N and µ = 1 the code as written returns the zero vector, the corrected form returns I |
| Core.DefaultMaterial | src/core.hpp:70-75 | a default `Material` is white diffuse, with no specular, no emission and specular probability 0 |
| Core.DefaultSurface | src/core.hpp:56-60 | a default `LocalSurface` has zero position and normal and no material |
| Core.NoIntersection | src/core.hpp:89-93 | a default `Intersection` is a miss at distance infinity |
| Core.BaseIntersect | src/core.hpp:101-103 | the base `Shape::intersect` always fails with the logic error "Shape: No intersection implemented!" |
| Core.SampleF | src/core.hpp:76-85 | `sample_f` scatters along the sampled direction from the surface point offset by 0.0001 along the normal, with the diffuse colour as attenuation |
| Core.SampleFAboveSurface | src/core.hpp:78 | the new ray starts strictly on the normal's side of the surface |
| Core.SampleFUsesOnlyDiffuse | src/core.hpp:76-85 | materials with the same diffuse colour scatter identically; specular and its probability are not consulted |
| Core.Path | src/core.hpp:128-140 | the bounces the tracer follows are all hits, there are at most 10, and a walk that ends in a throw ends before bounce 10 |
| Core.Pathtrace | src/core.hpp:124-143 | the loop returns the radiance of its path (emission weighted by the product of earlier attenuations), or the `logic_error` the scene's `intersect` threw; it calls `intersect` once per hit plus once for the miss or throw, or 10 times |
| Core.PathtraceThrows | src/core.hpp:128-129 | when `pathtrace` throws, the scene's `intersect` threw on the ray of some bounce below 10 |
| Core.PathtraceNoThrow | src/core.hpp:128-129 | a scene whose `intersect` never throws never makes `pathtrace` throw |
| Core.PathtraceBaseScene | src/core.hpp:101-103 | with the base `Shape` as scene, `pathtrace` fails with its "Shape: No intersection implemented!" error |
| Core.PathtraceFirstMiss | src/core.hpp:124-143 | a camera ray that misses yields an empty path and black, with no error |
| Core.PathtraceOneBounce | src/core.hpp:128-140 | if the first hit's scattered ray misses, the radiance is that hit's emission |
| Core.RadianceWithoutEmission | src/core.hpp:136 | a path through non-emissive materials gathers black |
| Core.PathBound | src/core.hpp:128 | no path has more than 10 bounces |
| ShapePlane.Plane.WithMaterial | src/shapes/plane.cpp:3-6 | sets the material, keeps the other fields and returns the same plane |
| ShapePlane.Plane.WithPos | src/shapes/plane.cpp:7-10 | sets the position only and returns the same plane |
| ShapePlane.Plane.WithDir | src/shapes/plane.cpp:11-14 | sets the normal only and returns the same plane |
| ShapePlane.Plane.Intersect | src/shapes/plane.cpp:21-40 | a ray parallel to the plane misses; a hit has positive finite distance, lies on the ray and on the plane, carries the plane's material, and its normal is `dir`, or `-dir` when the ray runs along `dir`, so it faces the ray; every non-parallel ray whose crossing parameter is positive hits there, and a miss is the default intersection |
| ShapePlane.PlaneParameter | src/shapes/plane.cpp:28-33 | the parameter t solved for lies on the plane |
| ShapePlane.FacingNormal | src/shapes/plane.cpp:34 | choosing −n when n·d > 0 gives a normal with negative dot product against the ray |
| ShapePlane.PlaneHeadOn | src/shapes/plane.cpp:21-40 | a ray sent against a plane's unit normal from its front side hits at the ray origin's distance from the plane, with the plane's own normal |
| ShapeDisc.Disc.WithMaterial | src/shapes/disc.cpp:3-6 | sets the material only and returns the same disc |
| ShapeDisc.Disc.WithPos | src/shapes/disc.cpp:7-10 | sets the centre only |
| ShapeDisc.Disc.WithDir | src/shapes/disc.cpp:11-14 | sets the normal only |
| ShapeDisc.Disc.WithRadius | src/shapes/disc.cpp:15-18 | sets the radius only |
| ShapeDisc.Disc.Intersect | src/shapes/disc.cpp:25-56 | the same facts as for a plane: positive distance, on the disc's plane, normal `±dir` facing the ray, own material, within the radius |
| ShapeDisc.DiscRefinesPlane | src/shapes/disc.cpp:25-56 | every disc hit is the hit of the plane through it, and a plane miss is a disc miss |
| ShapeDisc.DiscInsideRim | src/shapes/disc.cpp:40-45 | a plane hit within the radius is exactly the disc's hit |
| ShapeDiamond.Diamond.WithMaterial | src/shapes/diamond.cpp:3-6 | sets the material only and returns the same diamond |
| ShapeDiamond.Diamond.WithPos | src/shapes/diamond.cpp:7-10 | sets the position only |
| ShapeDiamond.Diamond.WithA | src/shapes/diamond.cpp:11-14 | sets the first edge only |
| ShapeDiamond.Diamond.WithB | src/shapes/diamond.cpp:15-18 | sets the second edge only |
| ShapeDiamond.Diamond.Intersect | src/shapes/diamond.cpp:25-58 | the plane facts, plus: a hit's position projects onto each edge within that edge's length |
| ShapeDiamond.ClipAlong | src/shapes/diamond.cpp:38-47 | the test `abs(v·p / |v|) > |v|` is false exactly when v·p lies within ±|v|² |
| ShapeDiamond.DiamondClipsPlane | src/shapes/diamond.cpp:25-58 | a diamond hit is its plane's hit that passes both edge tests, and anything else is a miss |
| ShapeDiamond.DiamondAwayFromOrigin | src/shapes/diamond.cpp:41-47 | a unit diamond centred at (10, 0, 0) is missed by a ray straight down through its centre |
| ShapeSphere.Sphere.WithMaterial | src/shapes/sphere.cpp:3-6 | sets the material only and returns the same sphere |
| ShapeSphere.Sphere.WithPos | src/shapes/sphere.cpp:7-10 | sets the centre only |
| ShapeSphere.Sphere.WithRadius | src/shapes/sphere.cpp:11-14 | sets the radius only |
| ShapeSphere.Sphere.Intersect | src/shapes/sphere.cpp:21-67 | corrected: from outside, it hits exactly when D ≥ 0 and the nearer root is positive, at that root, with the outward unit normal; from inside, it always hits at the farther root with the inward unit normal. A hit lies on the ray and on the sphere, carries its material, and its normal never points along the ray |
| ShapeSphere.Sphere.IntersectAsWritten | src/shapes/sphere.cpp:33-38 | as written: from outside with D < 0 it reports a hit at NaN distance; otherwise it agrees with the corrected form |
| ShapeSphere.HitAtFacts | src/shapes/sphere.cpp:40-63 | the intersection built from a root has that distance, lies on the ray, and has the unit normal pointing outward (outside) or inward (inside) |
| ShapeSphere.SphereSurface | src/shapes/sphere.cpp:40-43 | either root of the quadratic lies on the sphere |
| ShapeSphere.InsideRoot | src/shapes/sphere.cpp:51-54 | from inside (q < 0) the root −p + √D is positive |
| ShapeSphere.RootIsNearest | src/shapes/sphere.cpp:33-54 | no point of the ray strictly before the chosen root is on the sphere |
| ShapeSphere.SphereMissReportedAsHit | src/shapes/sphere.cpp:31-38 | a ray from (2, 0, 0) along z misses the unit sphere at the origin, yet the code reports a hit at NaN distance |
| ShapeCollections.MemberIntersect | src/shapes/shapelist.cpp:17 | with the corrected sphere: the virtual `intersect` fails exactly when the member is, or contains, a base shape. Otherwise its result is consistent: it hits iff its distance is finite, a hit's distance is positive, and a miss is the default intersection |
| ShapeCollections.OutcomesThrow | src/shapes/shapelist.cpp:16-17 | member k's outcome is the not-implemented error exactly when member k throws |
| ShapeCollections.OutcomesConsistent | src/shapes/shapelist.cpp:17 | with the corrected sphere, every member outcome that succeeds is consistent (`ListHidesSphereNaN` links the list result to the sphere as written) |
| ShapeCollections.ListIntersect | src/shapes/shapelist.cpp:14-23 | a list fails exactly when some member throws, with that error; otherwise its result is consistent |
| ShapeCollections.Collect | src/shapes/shapelist.cpp:16-21 | the exception leaving the loop: all outcomes succeed and are collected in order, or the result is the first error |
| ShapeCollections.ShapeList.Intersect | src/shapes/shapelist.cpp:14-23 | the loop computes the list's intersection, error included |
| ShapeCollections.EmptyListMisses | src/shapes/shapelist.cpp:15-22 | an empty list misses at infinity |
| ShapeCollections.ListIsNearest | src/shapes/shapelist.cpp:16-21 | the list's distance is ≤ every member's non-NaN distance |
| ShapeCollections.ListSource | src/shapes/shapelist.cpp:15-20 | the list's result is the miss or one member's result, strictly nearer than every earlier non-NaN member |
| ShapeCollections.ListHitsIffSomeMemberHits | src/shapes/shapelist.cpp:15-19 | with the corrected sphere, a list hits iff some member hits; by `ListHidesSphereNaN` the list result is the same with the sphere as written, though its NaN member then "hits" |
| ShapeCollections.MemberAsWrittenEquivalent | src/shapes/shapelist.cpp:17-18 | with the as-written sphere, every member outcome differs at most by a far (NaN or infinite) miss, and only for spheres |
| ShapeCollections.ListHidesSphereNaN | src/shapes/shapelist.cpp:18 | with the as-written sphere, `ShapeList::intersect` returns exactly what it returns with the corrected one |
| LegacyScene.DefaultHit | src/shapes/core.hpp:11-15 | a default `Hit` is a miss at infinity with zero position and normal |
| LegacyScene.ShapeIntersect | src/shapes/core.hpp:24-27 | the base shape returns the default hit; a derived shape returns its own `intersect` |
| LegacyScene.Scene.Intersect | src/shapes/core.hpp:59-71 | the loop computes the nearest-hit fold, replacing the nearest when `nearest.dist > hit.dist` |
| LegacyScene.SceneIsNearest | src/shapes/core.hpp:59-71 | the scene's distance is never NaN, and is ≤ every shape's non-NaN distance |
| LegacyScene.SceneSource | src/shapes/core.hpp:65 | the result is the default hit or one shape's hit, strictly nearer than every earlier non-NaN shape |
| LegacyScene.BaseShapesMiss | src/shapes/core.hpp:26 | a scene made only of base shapes misses |
| Input.Button.Update | src/graphics/core.hpp:42-45 | `update` moves the current state to the previous one and sets the current one to "state is GLFW_PRESS"; with no change there is no edge. The same code is at src/gfx.hpp:10-13 |
| Input.EdgesExclusive | src/graphics/core.hpp:47-48 | `pressed` and `released` never both hold; one holds exactly when the state changed (also src/gfx.hpp:15-16) |
| Input.UpdateTwiceSettles | src/graphics/core.hpp:42-48 | updating twice with the same state leaves no edge (also src/gfx.hpp:10-16) |
| Input.MouseEdges | src/graphics/core.hpp:56-70 | a mouse press edge implies a button is down; a release edge implies not all are down; with no button changing there is no edge (also src/gfx.hpp:24-38) |
| Input.PressAndReleaseTogether | src/graphics/core.hpp:61-70 | one button going down while another goes up makes `pressed` and `released` true at once |
| Grids.New | src/frame.hpp:10-12 | a new grid has the given size and `width * height` cells, all equal to the fill |
| Grids.CellInRange | src/frame.hpp:18-20 | `i + width * j` of an in-bounds cell indexes the grid's data |
| Grids.CellInjective | src/frame.hpp:18-20 | distinct in-bounds cells have distinct indices |
| Grids.ContainsIffInRange | src/frame.hpp:14-20 | for a column in range, `contains` holds exactly when the cell's index is in the data |
| Grids.NewGetsFill | src/frame.hpp:10-23 | every cell of a new grid reads as the fill |
| Frames.Grid2D.constructor | src/graphics/core.hpp:167-170 | a new grid has `size.x * size.y` cells, all equal to the fill |
| Frames.Grid2D.Get | src/graphics/core.hpp:172-177 | `get(i, j)` reads the element at index `i + size.x * j` |
| Frames.Frame.constructor | src/graphics/frame.cpp:3-7 | a new frame has zero weight and black average and display in every pixel, and empty histories |
| Frames.Frame.Reset | src/graphics/core.hpp:198-202 | `reset` zeroes every weight, leaves the averages and the display as they are, and starts every pixel's history afresh while keeping the invariant |
| Frames.Frame.AddSample | src/graphics/frame.cpp:78-86 | `add_sample` updates exactly one in-bounds pixel, records the sample in that pixel's history, and keeps the invariant |
| Frames.Frame.AddBilinear | src/graphics/frame.cpp:62-77 | `add_bilinear` performs the four corner samples in loop order and keeps the invariant |
| Frames.Frame.AddRow | src/graphics/frame.cpp:73-75 | the inner loop adds the two samples of row j |
| Frames.Frame.AddCorner | src/graphics/frame.cpp:74 | one call of `add_sample` with weight `wx[i] * wy[j]` |
| Frames.SampleCells | src/graphics/frame.cpp:79-84 | an out-of-bounds sample changes nothing; in bounds, the weight grows, the average moves by `weight * (value − average) / (W + weight)`, the display is the new average, and other pixels keep their values |
| Frames.SampleSummarises | src/graphics/frame.cpp:78-86 | a sample keeps every pixel summarising its history |
| Frames.MeanStepChannel | src/graphics/frame.cpp:83 | the running-mean update multiplied by the new weight is the old sum plus weight · value |
| Frames.MeanStepAt | src/graphics/frame.cpp:80-83 | in each channel, the updated average times the new weight is the history's weighted sum |
| Frames.MeanStep | src/graphics/frame.cpp:80-83 | one update keeps weight and average equal to the sums over the extended history |
| Frames.FirstSample | src/graphics/frame.cpp:80-83 | on a zero weight (a new or reset pixel), one sample sets the average to its value |
| Frames.MeanIsWeightedAverage | src/graphics/frame.cpp:80-83 | the average is the history's weighted sum divided by its total weight |
| Frames.TotalReordered | src/graphics/frame.cpp:80-83 | the weighted sums do not depend on the order of the samples |
| Frames.AccumulatesReordered | src/graphics/frame.cpp:80-83 | a pixel summarises any reordering of its history, so accumulation is order independent |
| Frames.StepWeight | src/graphics/frame.cpp:69-74 | step n = 2j + i of the loops uses weight `wx[i] * wy[j]` |
| Frames.CornerWeightsSumToOne | src/graphics/frame.cpp:69-70 | the four bilinear weights sum to 1 |
| Frames.CornersDistinct | src/graphics/frame.cpp:72-74 | the four corners are distinct pixels |
| Frames.BilinearSummarises | src/graphics/frame.cpp:62-77 | after any number of the four samples, every pixel still summarises its history |
| Frames.BilinearLoopStep | src/graphics/frame.cpp:72-76 | the loop's step (i, j) is the model's step 2j + i, and it may be taken |
| Triangulation.U32 | src/graphics/core.hpp:128 | `Index` arithmetic wraps modulo 2³²; an in-range value is unchanged |
| Triangulation.FanTriangleAt | src/graphics/canvas.cpp:40-45 | triangle i of a fan is entries 3i … 3i + 2 |
| Triangulation.FanCloses | src/graphics/canvas.cpp:45 | the last triangle closes the fan on its first rim vertex |
| Triangulation.FanFresh | src/graphics/canvas.cpp:36-48 | every fan index refers to a vertex of the polygon being drawn |
| Triangulation.RingSegmentAt | src/graphics/canvas.cpp:57-63 | segment i of a ring is entries 6i … 6i + 5 |
| Triangulation.RingIndexNoWrap | src/graphics/canvas.cpp:62 | without `u32` overflow, ring index (i, t) is base + (2i + offset) mod 2·sides, within the stroke's vertices |
| Triangulation.RingFresh | src/graphics/canvas.cpp:56-63 | every ring index refers to a vertex of the stroke being drawn |
| Triangulation.FillIndicesFresh | src/graphics/canvas.cpp:36-48 | `fill_polygon` appends 3 indices per side, all referring to its own sides + 1 vertices; the same holds for `polygon_interior` (src/canvas.cpp:128-140) |
| Triangulation.StrokeIndicesFresh | src/graphics/canvas.cpp:56-63 | `stroke_polygon` appends 6 indices per side, all referring to its own 2·sides vertices; the same holds for `polygon_boundary` (src/canvas.cpp:149-156) |
| Triangulation.FillTriangleAt | src/graphics/canvas.cpp:37-45 | triangle i of `fill_polygon` is (centre, rim i, rim i + 1 mod sides) |
| Triangulation.StrokeIndexAt | src/graphics/canvas.cpp:61-62 | index t of segment i of `stroke_polygon` (and of `polygon_boundary`, src/canvas.cpp:154-155) is base + (2i + offset t) mod 2·sides |
| Triangulation.QuadFresh | src/graphics/canvas.cpp:116-124 | the quad's six indices, in both canvases' `line` (also src/canvas.cpp:92-100), are base + 0, 1, 3, 1, 2, 3, all among its four vertices |
| GraphicsCanvas.CircleSides | src/graphics/core.hpp:145-147 | `circle_sides` truncates 64 + 256·radius to `u32`: at least 64 for a non-negative radius |
| GraphicsCanvas.CircleSidesMonotone | src/graphics/core.hpp:145-147 | a larger radius never gets fewer sides |
| GraphicsCanvas.CapSides | src/graphics/canvas.cpp:106-126 | a round cap of a line with non-negative width has at least 64 sides, and the count is `64 + 128 * width` truncated (half the width is the cap radius) |
| GraphicsCanvas.CapIndicesFresh | src/graphics/canvas.cpp:128-129 | a line's caps append 6 indices per side for a round cap and none otherwise, all among the caps' own vertices |
| GraphicsCanvas.LineIndicesFresh | src/graphics/canvas.cpp:116-129 | everything `line` appends refers to its own vertices: 6 indices, plus 6 per side for round caps |
| GraphicsCanvas.CircleIndicesFresh | src/graphics/canvas.cpp:92-96 | everything `circle` appends refers to its own vertices: 3 per side for the fill and 6 per side for the stroke |
| GraphicsCanvas.CircleFillFresh | src/graphics/canvas.cpp:94 | the fill fan refers only to its own vertices |
| GraphicsCanvas.CircleStrokeFresh | src/graphics/canvas.cpp:95 | the stroke ring refers only to its own vertices |
| GraphicsCanvas.Canvas.constructor | src/graphics/canvas.cpp:3-11 | a new canvas has the default style (white fill, black stroke, width 0.1) and empty buffers |
| GraphicsCanvas.Canvas.Clear | src/graphics/canvas.cpp:17-21 | `clear` empties both buffers and keeps the style |
| GraphicsCanvas.Canvas.With | src/graphics/core.hpp:115-120 | `with(fn)` keeps what `fn` drew and restores the style it started with |
| GraphicsCanvas.Canvas.FillPolygon | src/graphics/canvas.cpp:33-49 | appends the centre and sides rim vertices in the colour, and the fan's triangles |
| GraphicsCanvas.Canvas.AppendRim | src/graphics/canvas.cpp:41-45 | one loop step appends one vertex and triangle i |
| GraphicsCanvas.Canvas.StrokePolygon | src/graphics/canvas.cpp:50-68 | appends 2·sides vertices in the colour and the ring's indices |
| GraphicsCanvas.Canvas.AppendSegment | src/graphics/canvas.cpp:61-63 | the inner loop appends segment i's six indices and no vertex |
| GraphicsCanvas.Canvas.AppendQuad | src/graphics/canvas.cpp:116-124 | appends four vertices and the quad's two triangles |
| GraphicsCanvas.Canvas.LineCaps | src/graphics/canvas.cpp:128-129 | a round cap appends a fan at each end; other caps append nothing |
| GraphicsCanvas.Canvas.Line | src/graphics/canvas.cpp:105-130 | `line` appends the stroke-coloured quad, then the caps of `circle_sides(0.5 * width)` sides |
| GraphicsCanvas.Canvas.CircleFill | src/graphics/canvas.cpp:94 | the fill fan unless `nofill` |
| GraphicsCanvas.Canvas.CircleStroke | src/graphics/canvas.cpp:95 | the stroke ring unless `nostroke` |
| GraphicsCanvas.Canvas.Circle | src/graphics/canvas.cpp:92-96 | `circle` appends the fill fan and then the stroke ring, both with `circle_sides(radius)` sides |
| GraphicsCanvas.Canvas.Arrow | src/graphics/canvas.cpp:143-160 | `arrow` and `arrow_line` each append three round-capped lines, each line indexed from the vertex count the previous one left |
| LegacyCanvas.ComplexMulNorm | src/canvas.cpp:118-123 | `complex_mul` is `rotate`, is commutative and multiplies squared lengths, so a unit rotor keeps a length |
| LegacyCanvas.RimOnCircle | src/canvas.cpp:131-139 | with a unit rotor, every rim offset `polygon_interior` computes lies on the circle of the radius |
| LegacyCanvas.CapIndicesFresh | src/canvas.cpp:105 | a cap appends 3·256 indices among its own vertices, or nothing |
| LegacyCanvas.CapsIndicesFresh | src/canvas.cpp:105-106 | both caps index only their own vertices |
| LegacyCanvas.LineIndicesFresh | src/canvas.cpp:92-106 | everything `line` appends refers to its own vertices |
| LegacyCanvas.CircleIndicesFresh | src/canvas.cpp:163-167 | everything `circle` appends refers to its own vertices |
| LegacyCanvas.CircleIndependent | src/canvas.cpp:163-167 | `fill` and `stroke` act independently: a circle draws what a fill-only circle draws and then what a stroke-only one draws |
| LegacyCanvas.Canvas.constructor | src/canvas.cpp:60-68 | a new canvas has the default style (opaque white fill, transparent black stroke, width 0.01) and empty buffers |
| LegacyCanvas.Canvas.Draw | src/canvas.cpp:74-86 | after drawing, both buffers are empty and the style is kept |
| LegacyCanvas.Canvas.PolygonInterior | src/canvas.cpp:124-141 | appends the centre and sides rim vertices, and the fan's triangles |
| LegacyCanvas.Canvas.AppendRim | src/canvas.cpp:133-137 | one loop step appends one vertex and triangle i |
| LegacyCanvas.Canvas.PolygonBoundary | src/canvas.cpp:142-161 | appends 2·sides vertices and the ring's indices |
| LegacyCanvas.Canvas.AppendSegment | src/canvas.cpp:154-156 | the inner loop appends segment i's six indices |
| LegacyCanvas.Canvas.AppendQuad | src/canvas.cpp:92-100 | appends four vertices and the quad's two triangles |
| LegacyCanvas.Canvas.LineCap | src/canvas.cpp:105 | a cap is a 256-sided `polygon_interior` in the stroke colour, or nothing |
| LegacyCanvas.Canvas.LineCaps | src/canvas.cpp:105-106 | the cap at `a` if `cap_a`, then the cap at `b` if `cap_b` |
| LegacyCanvas.Canvas.Line | src/canvas.cpp:88-107 | `line` appends the stroke-coloured quad and then the requested caps |
| LegacyCanvas.Canvas.Arrow | src/canvas.cpp:108-116 | `arrow` appends the shaft with the default caps and two barbs without the cap at `a` |
| LegacyCanvas.Canvas.CircleFill | src/canvas.cpp:165 | the fill fan when `fill` |
| LegacyCanvas.Canvas.CircleStroke | src/canvas.cpp:166 | the stroke ring when `stroke` |
| LegacyCanvas.Canvas.Circle | src/canvas.cpp:163-167 | `circle` appends the fill fan and then the stroke ring, with 256 sides whatever the radius |

## Left out

- OpenGL, GLFW, windows, shaders, textures and buffer uploads (`render`, `load_program`, `Buffer`, `Window`, `src/main.cpp`, `src/graphics/window.cpp`, `src/graphics/backend.cpp`): foreign calls with no logic of their own. The constructors of `Frame` and `Canvas` are modelled for their grid and buffer part only.
- SVG recording (`record`, `svg_data`, `save_as_svg`), `format`, `draw` on shapes and the `operator<<` printers: output formatting with no effect on the modelled state.
- Vertex positions in both canvases: they come from `cos`, `sin` and float rotations. Vertices carry only their colour. The legacy rim offsets are modelled exactly by `RimOffset`, assuming an exact unit rotor.
- `Random`, `sample_sphere` and `sample_cos_hemisphere`: randomness and trigonometry. The sampled direction is the parameter `sample`.
- IEEE-754 rounding, `f32`/`f64` casts and `RGB::from`'s narrowing: values are exact reals. NaN and infinity are modelled only for hit distances.
- Concurrent writers to the frame buffer: the source does not synchronise them. The model is sequential.
- Vectors.Unit: requires a non-zero vector, because the source divides by a zero norm there.
- Vectors.Normalize: requires a non-zero vector, for the same reason.
- Vectors.DivScalarAssign: requires a non-zero divisor, because the division by zero that the source allows is not modelled.
- Vectors.RefractAsWritten: carries no contract of its own. What it does wrong is stated by `Vectors.RefractAsWrittenHeadOn`.
- ShapeSphere.Sphere.Intersect: requires a unit ray direction (the source's `Unit<Vec3f>`) and a non-zero radius. A zero radius would make `unit()` divide by zero.
- Core.Pathtrace: requires every hit to carry a material, because the source dereferences `material` without testing it for `nullptr`.
- ShapeCollections.MemberIntersect: dispatches a sphere member to the corrected `ShapeSphere.Sphere.Intersect`, so for a ray from outside a sphere with a negative discriminant it returns a miss where the source's virtual call returns a hit at NaN distance. `ShapeCollections.MemberIntersectAsWritten` is the call as written, and `ShapeCollections.MemberAsWrittenEquivalent` bounds the difference.
- Frames.Frame.AddSample: requires `W + weight ≠ 0` for an in-bounds pixel. The source's division by zero there is not modelled.
- Frames.Frame.AddBilinear: requires the same of each of its four samples.
- Grids.New and Frames.Grid2D.constructor: require non-negative sizes, since `std::vector` of a negative count does not exist.
- Grids.Get and Frames.Grid2D.Get: require an in-bounds cell, because an out-of-range `get` is undefined behaviour in the source.
- GraphicsCanvas.Canvas.Line and GraphicsCanvas.Canvas.Circle: require `64 + 256 * radius` to fit a `u32`, because the conversion is undefined otherwise. `Circle` and `StrokePolygon` also require `2 * sides` not to wrap to 0, because `% (2 * sides)` would divide by zero.
- GraphicsCanvas.Canvas.With: `fn` is modelled as a function of the canvas state. A lambda drawing through other references is not captured.
- The freshness lemmas (`*IndicesFresh`, `RingIndexNoWrap`, `StrokeIndexAt`): assume the vertex buffer stays below 2³² entries. Beyond that, the `u32` indices wrap, as `U32` models.
- The `LineArgs` and `CircleArgs` types used by `src/canvas.cpp` are not part of this model. Their fields are the booleans `capA`, `capB`, `fill` and `stroke`. `src/canvas.hpp` declares `line` and `circle` with plain `bool` parameters that disagree with the definitions, and the model follows the definitions. LegacyCanvas.Canvas.Arrow takes `LineArgs`' unknown defaults as parameters.
- The mouse position (`Mouse::pos`): it is never read by the modelled code.
- `Plane` and `Sphere` of `src/shapes/core.hpp`: only declarations, whose bodies are not part of this model. They are the `Derived` shapes of `LegacyScene`, with an arbitrary `intersect`.
- The class declarations of the newer shapes and of `ShapeList` are not part of this model. Their fields are taken from the member functions that use them.
- `Integrator::lights` and `Material::prob_specular`: stored but never consulted by `pathtrace` or `sample_f`.

## Findings

| source | as written | input that shows it | evidently intended | confidence | as-written member | corrected member |
|---|---|---|---|---|---|---|
| src/shapes/sphere.cpp:31-38 | a ray starting outside the sphere (q ≥ 0) is never tested for D < 0. `sqrt` of a negative D is NaN, `t <= 0.0` is false, and the sphere reports a hit at NaN distance | unit sphere at the origin, ray from (2, 0, 0) along (0, 0, 1): p = 0, q = 3, D = −3 | a negative discriminant is a miss | not executed | ShapeSphere.Sphere.IntersectAsWritten, ShapeSphere.SphereMissReportedAsHit | ShapeSphere.Sphere.Intersect, ShapeSphere.RootIsNearest |
| src/math/vector.hpp:259-265 | `k = 1 - mu*mu*(1 - I.dot(N))` omits the square of I·N, and the result `I*mu - N*mu*(N.dot(I) + sqrt(k))` scales √k by µ | I = (0, 0, −1), N = (0, 0, 1), µ = 1: k = −1, so the code returns the zero vector for a ray that should pass straight through | `k = 1 − µ²(1 − (N·I)²)` and `T = µI − (µ N·I + √k) N`, the usual refraction formula: a unit result for a unit ray | not executed | Vectors.RefractAsWritten, Vectors.RefractAsWrittenHeadOn | Vectors.Refract, Vectors.RefractIsUnit |
