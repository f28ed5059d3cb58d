# Terrain tessellation of the procedural-generation demo, in Dafny

This project models the terrain tessellation of a small OpenGL terrain demo.
Tessellation turns a height-field grid into triangles. The demo has two
forms of it, and both are index arithmetic over the grid:

- **The shared-vertex grid mesh** (`MeshCreator.CreateFromHeightMap`,
  `MeshCreator.CreateXZGrid`). It emits one vertex per grid intersection,
  column by column, built from a height map's `GetHeight` and `GetNormal`.
  It then emits two index triangles per cell. Both triangles split the cell
  along the same diagonal, v0 to v2, and the stride is `rows + 1`. The
  height-map interface becomes a datatype with two variants: the flat map
  (height 0, normal (0, 1, 0)) and an arbitrary map given by its two lookups.
- **The scene's triangle list** (`Scene.OnLoad`, `Scene.Draw`). `OnLoad`
  fills a `width` x `height` array of samples in nested loops. It then writes
  six vertices per cell into a flat array through a running `vertexIndex`,
  and that array is what the vertex buffer receives. `Draw` draws
  `(width - 1) * (height - 1) * 3 * 2` vertices. In the application both
  extents are the constant 1280; here they are parameters of at least 1. The
  per-sample position is an uninterpreted function, and the element type is
  generic.

Files:

- `grid_index.dfy` (module `GridIndex`) defines the column-by-column layout
  that both tessellations share. `Columns(m, n, piece)` concatenates the
  pieces of cells (0, 0), (0, 1), ..., (m-1, n-1), column after column. The
  lemmas there locate the entry `t` of cell (x, y) at index
  `(x * n + y) * L + t` when every piece has `L` entries, and take such an
  index apart again.
- `mesh_creator.dfy` (module `MeshCreator`) holds the mesh builder, its
  reference functions `GridOrder`/`GridVertices`/`GridFaces` and the lemmas
  about them.
- `scene.dfy` (module `SceneGraph`) holds the fill and expansion methods, the
  reference content `TriangleSoup`, the `Scene` class, and a lemma that ties
  the scene's triangle list to the shared-vertex mesh.

The loop bodies are separate methods: `IntersectionVertex` and
`CellTriangles` for the two loop nests of `CreateFromHeightMap`, and
`ExpandColumn` (the inner loop) and `EmitCell` (one cell's six writes) for
the expansion in `OnLoad`.

`CreateFromHeightMap` checks nothing about its extents. With a negative
extent the mesh is empty. If `columns` is negative, no loop body runs. If
only `rows` is negative, the outer loops still run, but their inner loops
append nothing. With a zero extent the float division `(float)0/0` gives a
NaN coordinate. The model keeps these behaviours: `VertexCount` and
`FaceCount` split on the sign of the extents, and `GridCoordinate` returns
`NaN` for a zero extent.

## Model

| member | source | states |
|---|---|---|
| MeshCreator.CreateFromHeightMap | source/CjClutter.OpenGl/EntityComponent/MeshCreator.cs:15-51 | The mesh has `VertexCount(columns, rows)` vertices, which is `(columns+1)*(rows+1)` for non-negative extents and 0 otherwise. It has `FaceCount(columns, rows)` faces, which is `2*columns*rows` for positive extents and 0 otherwise. Both lists equal their reference order. |
| MeshCreator.BuildVertices | source/CjClutter.OpenGl/EntityComponent/MeshCreator.cs:17-29 | The x-outer/y-inner vertex loops produce exactly the reference order `GridVertices`: the vertices of column 0 (rows 0..rows), then column 1, and so on up to column `columns`. |
| MeshCreator.BuildFaces | source/CjClutter.OpenGl/EntityComponent/MeshCreator.cs:31-48 | The face loops produce exactly `GridFaces`: the two triangles of each cell, cells visited column by column and, within a column, row by row. |
| MeshCreator.CreateXZGrid | source/CjClutter.OpenGl/EntityComponent/MeshCreator.cs:10-13 | It equals the mesh built from the flat height map, and every vertex has height 0 and normal (0, 1, 0). |
| MeshCreator.GridOrderLength | source/CjClutter.OpenGl/EntityComponent/MeshCreator.cs:17-29 | The column-by-column order has one entry per intersection: `(columns+1)*(rows+1)` for non-negative extents, none otherwise. |
| MeshCreator.GridFacesLength | source/CjClutter.OpenGl/EntityComponent/MeshCreator.cs:31-48 | There are two faces per cell: `2*columns*rows` for positive extents, none otherwise. |
| MeshCreator.VertexAt | source/CjClutter.OpenGl/EntityComponent/MeshCreator.cs:18-27 | For `0<=x<=columns` and `0<=y<=rows`, the vertex at index `x*(rows+1)+y` exists and is built from `GetHeight(x, y)` and `GetNormal(x, y)`. |
| MeshCreator.GridOrderAt | source/CjClutter.OpenGl/EntityComponent/MeshCreator.cs:18-23 | In the column-by-column order, the value for intersection (x, y) is at index `x*(rows+1)+y`, for any per-intersection value. |
| MeshCreator.GridOrderSlot | source/CjClutter.OpenGl/EntityComponent/MeshCreator.cs:18-23 | Conversely, every index k of that order holds the value of some intersection (x, y) of the grid, with `k = x*(rows+1)+y`. |
| MeshCreator.GridFacesAt | source/CjClutter.OpenGl/EntityComponent/MeshCreator.cs:32-46 | Faces `2k` and `2k+1` with `k = x*rows+y` exist and are the two triangles of cell (x, y). |
| MeshCreator.GridFacesSlot | source/CjClutter.OpenGl/EntityComponent/MeshCreator.cs:32-46 | Conversely, every face k is triangle `half` (0 or 1) of some cell (x, y) of the grid, with `k = 2*(x*rows+y)+half`. |
| MeshCreator.FaceAt | source/CjClutter.OpenGl/EntityComponent/MeshCreator.cs:36-43 | With `s = rows+1`, face `2k` is `(x*s+y, (x+1)*s+y, (x+1)*s+y+1)` and face `2k+1` is `(x*s+y, (x+1)*s+y+1, x*s+y+1)`. |
| MeshCreator.FaceIndicesInRange | source/CjClutter.OpenGl/EntityComponent/MeshCreator.cs:36-40 | Every corner of every face satisfies `0 <= index < VertexCount(columns, rows)`. |
| MeshCreator.CellCornersInRange | source/CjClutter.OpenGl/EntityComponent/MeshCreator.cs:36-40 | The four corner indices v0..v3 of a cell inside the grid address existing vertices. |
| MeshCreator.LastCornerIsLastVertex | source/CjClutter.OpenGl/EntityComponent/MeshCreator.cs:39-45 | The bound is tight: `v2` of the last cell's first triangle is `(columns+1)*(rows+1)-1`. |
| MeshCreator.CellTrianglesShareDiagonal | source/CjClutter.OpenGl/EntityComponent/MeshCreator.cs:37-43 | For cell (x, y), both triangles have three distinct indices and the four corners are distinct. Both triangles share v0 and v2, and each runs the diagonal v0-v2 in the opposite direction to the other. |
| MeshCreator.CoordinatesCentred | source/CjClutter.OpenGl/EntityComponent/MeshCreator.cs:25 | For positive extents, every vertex's x and z coordinates are finite and lie in [-0.5, 0.5]. |
| MeshCreator.XZGridOneByOne | source/CjClutter.OpenGl/EntityComponent/MeshCreator.cs:10-48 | The 1 x 1 flat grid has 4 vertices and the faces (0, 2, 3) and (0, 3, 1). |
| MeshCreator.XZGridTwoByTwo | source/CjClutter.OpenGl/EntityComponent/MeshCreator.cs:10-48 | The 2 x 2 flat grid has 9 vertices and 8 faces, and the vertex of intersection (1, 1) is at position (0, 0, 0). |
| SceneGraph.TriangleSoupLength | source/CjClutter.OpenGl/SceneGraph/Scene.cs:43 | The reference content has `(width-1)*(height-1)*3*2` entries, the length of the array allocated for it. |
| SceneGraph.FillHeightMap | source/CjClutter.OpenGl/SceneGraph/Scene.cs:27-41 | The array is `width` x `height` and entry (i, j) is the sample at (i, j) for every `0<=i<width`, `0<=j<height`. |
| SceneGraph.ExpandTriangles | source/CjClutter.OpenGl/SceneGraph/Scene.cs:43-63 | The array has length `(width-1)*(height-1)*3*2` and holds exactly `TriangleSoup`. Every write goes through `EmitCell`, which changes only its own six slots. Successive calls take consecutive ranges `vertexIndex..vertexIndex+5`, which together cover the array. The method modifies nothing that existed before it, so the height-map array is left unchanged. |
| SceneGraph.ExpandColumn | source/CjClutter.OpenGl/SceneGraph/Scene.cs:48-62 | The inner loop for column i appends that column's cells to the written prefix: if slots `0..vertexIndex-1` hold columns 0..i-1, then afterwards slots `0..next-1` hold columns 0..i. Slots from `next` on keep their old values. |
| SceneGraph.EmitCell | source/CjClutter.OpenGl/SceneGraph/Scene.cs:50-61 | One cell's six writes put the cell's six vertices, in the order v0, v1, v2, v0, v2, v3, in slots `vertexIndex..vertexIndex+5`. No other slot changes: the prefix before them and every slot from `vertexIndex+6` on keep their old values. |
| SceneGraph.CellFits | source/CjClutter.OpenGl/SceneGraph/Scene.cs:43-61 | For each cell, the slots written before it plus its own six fit inside the array of `(width-1)*(height-1)*3*2` slots, so no write is out of bounds. |
| SceneGraph.SoupAt | source/CjClutter.OpenGl/SceneGraph/Scene.cs:50-61 | For cell (i, j) with `b = 6*(i*(height-1)+j)`, slot `b+u` (for `0<=u<6`) exists and holds vertex u of the cell: the samples at (i,j), (i+1,j), (i+1,j+1), (i,j), (i+1,j+1) and (i,j+1). |
| SceneGraph.SlotOfCell | source/CjClutter.OpenGl/SceneGraph/Scene.cs:44-61 | Conversely, every slot k of the expansion is vertex u of some cell (i, j) of the grid, with `k = 6*(i*(height-1)+j)+u`. |
| SceneGraph.SampleOfSlot | source/CjClutter.OpenGl/SceneGraph/Scene.cs:46-53 | Each slot holds the sample of a grid position `0<=i<width`, `0<=j<height`. The neighbour reads `i+1` and `j+1` stay in the grid. |
| SceneGraph.SoupEntriesAreSamples | source/CjClutter.OpenGl/SceneGraph/Scene.cs:50-53 | Every vertex in the expanded array equals some height-map entry. |
| SceneGraph.SoupIsDereferencedMesh | source/CjClutter.OpenGl/SceneGraph/Scene.cs:46-61 | For each face k of the shared-vertex mesh of the same `(width-1)` x `(height-1)` grid, vertex t of triangle k of the scene's list is the sample that corner t of face k points to. So the two tessellations agree. |
| SceneGraph.MeshCornerIsCellVertex | source/CjClutter.OpenGl/EntityComponent/MeshCreator.cs:36-43 | Corner t of triangle `half` of a cell in the grid mesh is in range, and points at the sample that the scene emits as vertex `3*half+t` of that cell. |
| SceneGraph.Scene.constructor | source/CjClutter.OpenGl/SceneGraph/Scene.cs:14-20 | A new scene has the given extents and sampling, and nothing is loaded yet. |
| SceneGraph.Scene.OnLoad | source/CjClutter.OpenGl/SceneGraph/Scene.cs:25-69 | After loading, the vertex buffer holds `TriangleSoup(width, height, sample)`, whose length is `(width-1)*(height-1)*3*2`. |
| SceneGraph.Scene.Draw | source/CjClutter.OpenGl/SceneGraph/Scene.cs:152 | Once the scene is loaded, the draw count equals the number of vertices in the buffer. |

## Left out

- Floating point is not modelled. Positions are ideal reals: the `(float)` casts and the single-precision rounding of `x/columns - 0.5` are not modelled. The only non-finite value kept is the NaN of a zero extent.
- The simplex-noise sample and its scaling are not modelled. `0.2 * Noise(...)`, `ScaleTo` and the `-0.5` offsets in `Scene.OnLoad` become one uninterpreted per-sample function, `sample`. `SimplexNoise` is not part of this model.
- The `Vertex3V` wrapper in the scene is not modelled: each vertex is its position, of the generic element type.
- GPU calls are not modelled. Vertex-buffer creation and binding, shader compilation and linking, vertex-array setup, uniform upload, the double-to-float matrix narrowing and the polygon-mode calls are all foreign OpenGL calls. `Scene.vertexBuffer` stands for the data passed to the buffer.
- The `Scene` projection and view matrices and `Update` are left out: they carry no tessellation logic.
- Load/draw ordering is not modelled. The source has no check for `Draw` before `OnLoad`, which dereferences unset handles. `SceneGraph.Scene.Draw` states its draw count only for a loaded scene.
- 32-bit integer overflow is not modelled. Indices and counts are unbounded integers. For grids of fewer than 2^31 vertices, every face index stays below the vertex count, so no index product overflows.
- MeshCreator.CreateFromHeightMap: does not model a loop counter that wraps at an extreme extent. With `columns == int.MaxValue` the test `x <= columns` always holds and `x++` wraps to `int.MinValue`, so the source never returns. With `rows == int.MaxValue` the same happens in the inner loop, which keeps appending. The model returns the mesh of the unbounded loops instead, for example an empty mesh for `CreateFromHeightMap(int.MaxValue, -1, map)`. The C# arithmetic is unchecked, so no overflow exception intervenes.
- Custom height maps return real heights, so a NaN or infinite height from such a map is not modelled.
- The window, the GUI settings panel and the web-view HUD are not part of this model.
