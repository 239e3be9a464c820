# Möbius strip viewer: a Dafny model

`mobius.py` is a small Tk program. It tessellates a Möbius strip into
triangles. It shades each triangle by its distance from a fixed light and
projects the vertices with a rotating perspective camera. It then paints the
triangles far to near on an 800 x 600 canvas. The arrow keys turn the camera,
and sliders set the radius, the twist and the number of cells.

This project models the computational core of the program and proves
properties of it:

- `Geometry`: `Point3D`, `Triangle` and its centroid. `Trig` stands for
  `math.pi`, `math.sin` and `math.cos`. These are uninterpreted values, so
  nothing proved depends on what they are.
- `Mesh`: `create_mobius_strip`. It is an imperative method with the source's
  two nested loops. It is proved equal to a recursive specification
  (`MobiusMesh`), and the lemmas about that specification give:
  - the length of the mesh;
  - the slot of each cell's two triangles;
  - the corners that neighbouring triangles share.
- `CameraModel`: the `Camera` class and its methods.
  - `angle` is a mutable field.
  - Light intensity and projection are functions of the camera.
  - Rotation about the y axis is a separate function, with its inverse.
- `Colour`: the fill string `#rrggbb`. It covers:
  - `int()` truncation of each scaled channel;
  - `format(n, '02x')`;
  - a decoder, with the round trip proved.
- `DepthSort`: `sorted(strip, key=lambda t: -t.center.z)`. This is a stable
  ascending sort, written as an insertion sort. It is proved to be:
  - a permutation;
  - ordered far to near;
  - stable;
  - the only list with these properties.
- `Painter`: the body of `draw`, as a method with the source's loops.
  - It is proved equal to `Render`, a function giving the polygons on the
    canvas after the pass.
  - The lemmas about `Render` say when the pass stops early, and that every
    painted polygon comes in depth order.
- `App`: the `MobiusApp` class. It holds:
  - the slider fields;
  - the current mesh;
  - the camera;
  - the canvas contents.

  Every method keeps the invariant that the canvas shows the current mesh from
  the current camera.

Python's `float` division raises `ZeroDivisionError` when `dist + z'` is
zero. `Camera.Project` therefore requires that denominator to be non-zero.
When the draw pass reaches a triangle with such a vertex, it stops: the
polygons created before it stay on the canvas, and `Frame.aborted` records
the exception.

Three behaviours of the code shape the model:

- **Projection of y.** Line 70 multiplies both `x` and `y` by the
  perspective factor `f`.
- **Divide by zero.** Python's float division raises `ZeroDivisionError`
  when `dist + z'` is zero, and that ends the pass.
- **Equal depths.** `sorted` is stable, so triangles of equal depth keep
  mesh order.

## Model

| member | source | states |
|---|---|---|
| Geometry.Triangle.Center | mobius.py:9-15 | three times each centre coordinate is the sum of the vertices' coordinates, and each centre coordinate lies between the smallest and largest vertex coordinate |
| Geometry.CenterTranslates | mobius.py:12-15 | moving all three vertices by one offset moves the centre by that offset |
| Geometry.Triangle.Points | mobius.py:11 | definition, no contract: the vertex list [p1, p2, p3], in construction order, that both loops of `draw` walk |
| Mesh.Corner | mobius.py:21-47 | definition, no contract: the grid corner P(i, j), the surface point at u of grid line i and v of grid line j, which each of p1 to p4 is |
| Mesh.MobiusPoint | mobius.py:28-47 | definition, no contract: the point ((r + v cos(u/2)) cos u, (r + v cos(u/2)) sin u, twist v sin(u/2)) that each of p1 to p4 is |
| Mesh.U | mobius.py:21-22 | definition, no contract: grid line i is at u = 2 pi i / u_steps; u1 is line i and u2 line i + 1 |
| Mesh.V | mobius.py:25-26 | definition, no contract: grid line j is at v = -0.5 + j / v_steps; v1 is line j and v2 line j + 1 |
| Mesh.GridLineEnds | mobius.py:21-26 | the grid lines run from u = 0 to u = 2 pi and from v = -0.5 to v = 0.5 |
| Mesh.CellA | mobius.py:49 | definition, no contract: the first triangle of cell (i, j) is (p1, p2, p3) = (P(i,j), P(i,j+1), P(i+1,j)) |
| Mesh.CellB | mobius.py:50 | definition, no contract: the second triangle of cell (i, j) is (p2, p4, p3) = (P(i,j+1), P(i+1,j+1), P(i+1,j)) |
| Mesh.MobiusMesh | mobius.py:17-51 | definition, no contract: the triangles of the cells, row by row, two per cell |
| Mesh.MobiusPointRuling | mobius.py:28-47 | every surface point is the centre-line point (v = 0) plus v times a direction that depends on u only |
| Mesh.SlotFormula | mobius.py:20-50 | the append order puts cell (i, j) at index 2 (i * v_steps + j) |
| Mesh.SlotBelow | mobius.py:20-50 | every cell of rows before n comes before the first cell of row n |
| Mesh.SlotColumn | mobius.py:24-50 | within a row, the cells follow each other two indices apart |
| Mesh.RowLength | mobius.py:24-50 | one pass of the inner loop appends 2 * v_steps triangles |
| Mesh.RowAt | mobius.py:24-50 | in one row, index 2j holds triangle (p1, p2, p3) and index 2j+1 holds (p2, p4, p3) of cell j |
| Mesh.GridLength | mobius.py:20-50 | after n outer iterations the list length is `Slot(n, 0, v_steps)`, the position of row n's first cell, which `SlotFormula` puts at 2 * n * v_steps |
| Mesh.GridAt | mobius.py:20-50 | after n outer iterations every earlier cell's two triangles sit at its slot |
| Mesh.MeshLength | mobius.py:17-51 | the mesh has 2 * u_steps * v_steps triangles, and is empty when either count is 0 |
| Mesh.MeshLayout | mobius.py:28-50 | the slot of cell (i, j) is 2 (i * v_steps + j); that index holds (P(i,j), P(i,j+1), P(i+1,j)) and the next slot (P(i,j+1), P(i+1,j+1), P(i+1,j)) |
| Mesh.MeshLayoutAll | mobius.py:17-51 | the mesh has 2 * u_steps * v_steps triangles, and every cell (i, j) has its two triangles at index 2 (i * v_steps + j) and the next one |
| Mesh.CellOf | mobius.py:20-50 | every index below 2 * u * v belongs to the cell (k/2/v, k/2 mod v) and half k mod 2 |
| Mesh.MeshAt | mobius.py:20-50 | every triangle of the mesh is the first or second triangle of the cell its index names |
| Mesh.SharedEdges | mobius.py:28-50 | the two triangles of a cell share the edge p2-p3; a cell shares its corners with the next row's and the next column's cell |
| Mesh.CellDiagonal | mobius.py:49-50 | the second triangle of a cell starts at the first one's p2 and ends at its p3 |
| Mesh.NextRowEdge | mobius.py:21-50 | the first triangle of cell (i + 1, j) has cell (i, j)'s p3 and p4 as its p1 and p2 |
| Mesh.NextColumnEdge | mobius.py:25-50 | the first triangle of cell (i, j + 1) has cell (i, j)'s p2 and p4 as its p1 and p3 |
| Mesh.CreateMobiusStrip | mobius.py:17-51 | the nested loops build exactly the specified mesh, of length 2 * u_steps * v_steps, with cell (i, j)'s two triangles at index 2 (i * v_steps + j) and the next one |
| CameraModel.Square | mobius.py:60 | a square is never negative |
| CameraModel.SqDist | mobius.py:60 | the squared distance is never negative |
| CameraModel.RotateY | mobius.py:65-67 | rotation about the y axis keeps y |
| CameraModel.RotateYInverse | mobius.py:65-67 | for a cosine/sine pair on the unit circle, rotating back by the opposite sine restores the point |
| CameraModel.RotateYKeepsRadius | mobius.py:65-67 | for a cosine/sine pair on the unit circle, the rotation keeps the distance from the y axis |
| CameraModel.Camera.constructor | mobius.py:54-57 | a new camera has the given distance, angle 0 and the light at (5, 5, 5) |
| CameraModel.Camera.Depth | mobius.py:67 | definition, no contract: the rotated point's z, x sin(angle) + z cos(angle) |
| CameraModel.Camera.Projectable | mobius.py:67-69 | definition, no contract: the perspective divide is defined exactly when dist + z' is not 0 |
| CameraModel.Camera.LightIntensity | mobius.py:59-62 | intensity is in [0, 1]; it is 0 exactly when the squared distance to the light is at least 100; it is 1 exactly when that distance is 0, and so 1 at the light |
| CameraModel.Camera.LightFalloff | mobius.py:59-62 | a point no farther from the light is lit at least as brightly |
| CameraModel.Camera.Project | mobius.py:64-70 | with rotated point q, both results times (dist + q.z) equal q.x * dist and y * dist; x and y are scaled by the same factor |
| CameraModel.Camera.ProjectUnrotated | mobius.py:64-70 | at cosine 1 and sine 0 the projection is the plain perspective divide of x and y by dist + z |
| Colour.Trunc | mobius.py:133 | `int()` rounds toward zero: the floor for non-negative values, the ceiling for negative ones |
| Colour.ScaleWithin | mobius.py:133 | a non-negative base times an intensity in [0, 1] lies in [0, base] |
| Colour.Channel | mobius.py:133 | the channel is at most its base and is the largest integer not above base * intensity |
| Colour.HexDigit | mobius.py:133 | a digit below 16 becomes a lower-case hex character |
| Colour.DigitValue | mobius.py:133 | reading a hex character gives a value below 16 that formats back to it |
| Colour.Hex | mobius.py:133 | the numeral has at least one digit, all lower-case hex |
| Colour.HexRoundTrip | mobius.py:133 | reading the numeral back gives the number |
| Colour.HexLength | mobius.py:133 | a value has one digit exactly when it is below 16, and two when it is from 16 to 255 |
| Colour.Hex02 | mobius.py:133 | padding gives at least two hex digits, exactly two below 256 |
| Colour.Hex02RoundTrip | mobius.py:133 | the padded numeral reads back as the number |
| Colour.ColourOf | mobius.py:133 | the fill is `#` followed by six lower-case hex digits |
| Colour.ColourRoundTrip | mobius.py:133 | decoding the fill gives the three truncated channel values |
| Colour.ColourExtremes | mobius.py:133 | intensity 1 gives `#a689e1` and intensity 0 gives `#000000` |
| DepthSort.Key | mobius.py:125 | definition, no contract: the sort key is the negated z of the triangle's centre |
| DepthSort.WithKeyMember | mobius.py:125 | the equal-key part of a list holds only list elements with that key |
| DepthSort.WithKeyHead | mobius.py:125 | the head of a list belongs to the part with its own key |
| DepthSort.Insert | mobius.py:125 | insertion adds exactly one occurrence of the element |
| DepthSort.InsertSorted | mobius.py:125 | inserting into a list sorted by key keeps it sorted |
| DepthSort.SortByKey | mobius.py:125 | the sort is a permutation and is ordered by ascending key, -center.z |
| DepthSort.InsertStable | mobius.py:125 | insertion places the element before the equal-key elements, as if prepended |
| DepthSort.SortStable | mobius.py:125 | among triangles with equal keys the sort keeps mesh order |
| DepthSort.DrawOrder | mobius.py:125 | the sorted mesh is a permutation, non-increasing in center.z, and stable |
| DepthSort.SameHead | mobius.py:125 | two non-empty key-sorted lists that agree on every equal-key part start with the same triangle |
| DepthSort.WithKeyTail | mobius.py:125 | two lists with the same head that agree on every equal-key part still agree without the head |
| DepthSort.StableSortUnique | mobius.py:125 | two key-sorted lists that agree on every equal-key part are equal |
| DepthSort.SortByKeyIsTheStableSort | mobius.py:125 | any stable sort of the mesh by the same key gives the same draw order |
| Painter.ToScreen | mobius.py:138-139 | sx - 400 is 200 x and 300 - sy is 200 y; the point is on the 800 x 600 canvas exactly when abs(x) <= 2 and abs(y) <= 1.5 |
| Painter.FromScreen | mobius.py:138-139 | reading a canvas position back and mapping it again gives that position |
| Painter.ScreenRoundTrip | mobius.py:138-139 | the viewport is one-to-one, maps the origin to (400, 300), and turns a larger y into a smaller sy |
| Painter.Shade | mobius.py:128-131 | the mean intensity is in [0, 1] and between the vertices' smallest and largest; it is 0 exactly when all three vertices are at least 10 from the light, and 1 exactly when all three are at it |
| Painter.ScreenPoint | mobius.py:137-139 | definition, no contract: a vertex's canvas position is its projection mapped by the viewport |
| Painter.ScreenOf | mobius.py:135-140 | the coordinate list has two entries per vertex: the screen x and y of vertex k at 2k and 2k+1 |
| Painter.Command | mobius.py:133-146 | a polygon has six coordinates and a seven-character fill |
| Painter.PolygonPoints | mobius.py:135-140 | the vertex loop succeeds exactly when no vertex divides by zero, and then returns the screen coordinate list |
| Painter.Commands | mobius.py:127-146 | one polygon per drawable triangle |
| Painter.CommandsAt | mobius.py:127-146 | polygon k is the polygon of triangle k: the list order is kept |
| Painter.CommandsAppend | mobius.py:127-146 | painting one more drawable triangle appends its polygon |
| Painter.DrawablePrefix | mobius.py:127-146 | the pass gets through a prefix of drawable triangles and stops only at one that divides by zero |
| Painter.DrawablePrefixUnique | mobius.py:127-146 | that prefix length is determined by those two properties |
| Painter.Render | mobius.py:123-146 | the pass never paints more polygons than the mesh has triangles |
| Painter.RenderStopsAt | mobius.py:127-146 | a pass that paints the first k sorted triangles and stops at the first undrawable one, or at the end, gives the canvas `Render` describes |
| Painter.PaintTriangle | mobius.py:127-146 | one iteration succeeds exactly when the triangle is drawable, and then yields its polygon |
| Painter.DrawPass | mobius.py:123-146 | the loop over the sorted mesh leaves exactly the canvas that `Render` describes |
| Painter.RenderAborts | mobius.py:127-146 | the pass stops early exactly when some triangle has a vertex whose projection divides by zero |
| Painter.RenderAt | mobius.py:125-146 | polygon a on the canvas is the polygon of the a-th triangle in the stable far-to-near order, and that triangle is drawable |
| Painter.RenderComplete | mobius.py:125-146 | when every triangle projects, every one is painted, once, as the polygon of the k-th triangle in the stable far-to-near order |
| Painter.RenderOrder | mobius.py:125-146 | of two painted polygons, the earlier one's triangle is never nearer in z than the later one's |
| App.MobiusApp.constructor | mobius.py:73-90 | defaults radius 1, twist 0.5, 10 by 5 cells, a camera at distance 5 and angle 0 with the light at (5, 5, 5), a 100-triangle mesh, drawn |
| App.MobiusApp.SetRadius | mobius.py:108 | the slider value becomes the radius |
| App.MobiusApp.SetTwist | mobius.py:109 | the slider value becomes the twist |
| App.MobiusApp.SetUSteps | mobius.py:110 | the lengthwise cell count is the slider value truncated |
| App.MobiusApp.SetVSteps | mobius.py:111 | the crosswise cell count is the slider value truncated |
| App.MobiusApp.UpdateStrip | mobius.py:113-117 | the mesh is rebuilt from the current parameters, with 2 * u_steps * v_steps triangles, and the canvas shows it |
| App.MobiusApp.Rotate | mobius.py:119-121 | the angle grows by delta, with no wrap-around, and the canvas shows the mesh from the new angle |
| App.MobiusApp.OnLeft | mobius.py:89 | the Left key turns the camera by -0.1 and redraws |
| App.MobiusApp.OnRight | mobius.py:90 | the Right key turns the camera by +0.1 and redraws |
| App.MobiusApp.Draw | mobius.py:123-146 | the canvas is cleared and shows the current mesh from the current camera |

## Left out

- Tk is not modelled: the window, its title, the labels, the slider and button widgets, the layout, the key bindings' registration and `mainloop`. These are I/O.
- Slider values are not parsed from text. The setters take the number that `float(val)` would produce.
- App.MobiusApp.SetUSteps: requires a non-negative value. The Scale widget's range of 10 to 100 guarantees one, so negative counts are not modelled.
- App.MobiusApp.SetVSteps: requires a non-negative value. The Scale widget's range of 5 to 30 guarantees one, so negative counts are not modelled.
- The values of `math.pi`, `math.sin` and `math.cos` are left out. Nothing is proved about the surface's shape, the half-twist, or whether the strip closes at u = 2π.
- Floating-point rounding is not modelled: all arithmetic is exact real arithmetic. Equal depths, the truncated channels and the zero-division test are decided on exact values.
- The `outline='black'` and `width=1` polygon options are constant and are not recorded in `Polygon`.
- After a `ZeroDivisionError`, the model leaves the loop, records `aborted` and returns normally. In Python the exception leaves `draw` and the calling handler; the model does not say what happens after that.
- Python's sorting algorithm is not modelled. Any stable sort by the same key gives the same list (`DepthSort.StableSortUnique`), so an insertion sort stands in for it.
- CameraModel.Camera.LightIntensity: states "intensity 1 exactly when the squared distance is 0" and "1 at the light". It does not state the converse, that intensity 1 puts the point at the light, because that step needs nonlinear real arithmetic the solver does not do reliably.
