/**
 * The shared-vertex grid mesh builder: one vertex per grid intersection,
 * listed column by column, and two index triangles per grid cell that
 * split the cell along the same diagonal.
 */
module MeshCreator {
  import opened GridIndex

  /** A single-precision component, taken as an ideal number: a real value,
      or the NaN that the float division 0f/0f yields. Rounding is not modelled. */
  datatype Scalar = Finite(value: real) | NaN

  datatype Vector3 = Vector3(x: Scalar, y: Scalar, z: Scalar)

  /** The upward normal (0, 1, 0). */
  const Up: Vector3 := Vector3(Finite(0.0), Finite(1.0), Finite(0.0))

  /** A vertex with a position and a normal. */
  datatype Vertex = Vertex(position: Vector3, normal: Vector3)

  /** A triangle given by three indices into the vertex list. */
  datatype Face = Face(v0: int, v1: int, v2: int)

  /** The mesh: its vertices and its faces, built once. */
  datatype Mesh = Mesh(vertices: seq<Vertex>, faces: seq<Face>)

  /**
   * The height-map capability: a height and a normal per grid intersection.
   * `FlatHeightMap` is the flat map; `Custom` stands for any other
   * implementation, given by its two lookups.
   */
  datatype HeightMap =
    | FlatHeightMap
    | Custom(height: (int, int) -> real, normal: (int, int) -> Vector3)
  {
    function GetHeight(column: int, row: int): real {
      match this
      case FlatHeightMap => 0.0
      case Custom(height, _) => height(column, row)
    }

    function GetNormal(column: int, row: int): Vector3 {
      match this
      case FlatHeightMap => Up
      case Custom(_, normal) => normal(column, row)
    }
  }

  /** Corner `t` (0, 1 or 2) of a face. */
  function Corner(f: Face, t: int): int {
    if t == 0 then f.v0 else if t == 1 then f.v1 else f.v2
  }

  /** The grid coordinate `i / n - 0.5` of intersection `i` along an extent of
      `n` cells; with `n == 0` the float division is 0/0, a NaN. */
  function GridCoordinate(i: int, n: int): Scalar {
    if n == 0 then NaN else Finite(i as real / n as real - 0.5)
  }

  /** The vertex built at intersection (x, y). */
  function GridVertex(columns: int, rows: int, heightMap: HeightMap, x: int, y: int): Vertex {
    Vertex(Vector3(GridCoordinate(x, columns), Finite(heightMap.GetHeight(x, y)), GridCoordinate(y, rows)),
           heightMap.GetNormal(x, y))
  }

  /** Number of intersections visited by the vertex loops (none when an extent is negative). */
  function VertexCount(columns: int, rows: int): nat {
    if columns < 0 || rows < 0 then 0 else (columns + 1) * (rows + 1)
  }

  /** Number of triangles emitted by the face loops. */
  function FaceCount(columns: int, rows: int): nat {
    if columns <= 0 || rows <= 0 then 0 else 2 * columns * rows
  }

  /** The one-entry piece `[at(x, y)]` of every intersection. */
  function Singletons<V>(at: (int, int) -> V): (int, int) -> seq<V> {
    (x, y) => [at(x, y)]
  }

  /**
   * Reference order of the vertex list: the value of every intersection of
   * column 0 (rows 0..rows), then of column 1, and so on up to column `columns`.
   */
  function GridOrder<V>(columns: int, rows: int, at: (int, int) -> V): seq<V> {
    Columns(columns + 1, rows + 1, Singletons(at))
  }

  /** The vertex built at each intersection. */
  function VertexOf(columns: int, rows: int, heightMap: HeightMap): (int, int) -> Vertex {
    (x, y) => GridVertex(columns, rows, heightMap, x, y)
  }

  function GridVertices(columns: int, rows: int, heightMap: HeightMap): seq<Vertex> {
    GridOrder(columns, rows, VertexOf(columns, rows, heightMap))
  }

  /** Triangle `half` (0 or 1) of the cell at column x, row y, with `rows + 1`
      vertices per column and the diagonal from v0 to v2. */
  function CellFace(rows: int, x: int, y: int, half: int): Face {
    var s := rows + 1;
    var v0 := x * s + y;
    var v1 := (x + 1) * s + y;
    var v2 := (x + 1) * s + y + 1;
    var v3 := x * s + y + 1;
    if half == 0 then Face(v0, v1, v2) else Face(v0, v2, v3)
  }

  /** The two triangles of every cell. */
  function CellFaces(rows: int): (int, int) -> seq<Face> {
    (x, y) => [CellFace(rows, x, y, 0), CellFace(rows, x, y, 1)]
  }

  /** Reference order of the face list: the two triangles of every cell of
      column 0 (rows 0..rows-1), then of column 1, and so on. */
  function GridFaces(columns: int, rows: int): seq<Face> {
    Columns(columns, rows, CellFaces(rows))
  }

  lemma SingletonsUniform<V>(at: (int, int) -> V)
    ensures Uniform(Singletons(at), 1)
  {
  }

  lemma CellFacesUniform(rows: int)
    ensures Uniform(CellFaces(rows), 2)
  {
  }

  /** The reference order has one entry per intersection: `(columns + 1) * (rows + 1)`
      for non-negative extents, none otherwise. */
  lemma {:induction false} GridOrderLength<V>(columns: int, rows: int, at: (int, int) -> V)
    ensures |GridOrder(columns, rows, at)| == VertexCount(columns, rows)
  {
    SingletonsUniform(at);
    ColumnsLength(columns + 1, rows + 1, Singletons(at), 1);
  }

  /** Two faces per cell: `2 * columns * rows` for positive extents, none otherwise. */
  lemma {:induction false} GridFacesLength(columns: int, rows: int)
    ensures |GridFaces(columns, rows)| == FaceCount(columns, rows)
  {
    CellFacesUniform(rows);
    ColumnsLength(columns, rows, CellFaces(rows), 2);
  }

  /**
   * Builds the mesh over a `columns` x `rows` grid: the vertex loops visit
   * x = 0..columns (outer) and y = 0..rows (inner); the face loops visit each
   * cell in the same order and emit its two triangles.
   */
  method CreateFromHeightMap(columns: int, rows: int, heightMap: HeightMap) returns (mesh: Mesh)
    ensures mesh.vertices == GridVertices(columns, rows, heightMap)
    ensures mesh.faces == GridFaces(columns, rows)
    ensures |mesh.vertices| == VertexCount(columns, rows)
    ensures |mesh.faces| == FaceCount(columns, rows)
  {
    var vertices := BuildVertices(columns, rows, heightMap);
    var faces := BuildFaces(columns, rows);
    mesh := Mesh(vertices, faces);
    GridOrderLength(columns, rows, VertexOf(columns, rows, heightMap));
    GridFacesLength(columns, rows);
  }

  /** The vertex loops: x = 0..columns outside, y = 0..rows inside. */
  method BuildVertices(columns: int, rows: int, heightMap: HeightMap) returns (vertices: seq<Vertex>)
    ensures vertices == GridVertices(columns, rows, heightMap)
  {
    ghost var piece := Singletons(VertexOf(columns, rows, heightMap));
    vertices := [];
    var x := 0;
    while x <= columns
      invariant 0 <= x <= if columns < 0 then 0 else columns + 1
      invariant vertices == Columns(x, rows + 1, piece)
    {
      ghost var done := vertices;
      var y := 0;
      while y <= rows
        invariant 0 <= y <= if rows < 0 then 0 else rows + 1
        invariant vertices == done + Column(x, y, piece)
      {
        ghost var column := Column(x, y, piece);
        var vertex := IntersectionVertex(columns, rows, heightMap, x, y);
        vertices := vertices + [vertex];
        ColumnGrows(x, y, piece);
        assert piece(x, y) == [vertex];
        assert vertices == done + (column + [vertex]);
        y := y + 1;
      }
      ColumnsGrow(x, rows + 1, piece);
      x := x + 1;
    }
  }

  /** The body of the vertex loops for intersection (x, y): the centred grid
      position lifted to the sampled height, with the sampled normal. */
  method IntersectionVertex(columns: int, rows: int, heightMap: HeightMap, x: int, y: int) returns (vertex: Vertex)
    ensures [vertex] == Singletons(VertexOf(columns, rows, heightMap))(x, y)
  {
    var height := heightMap.GetHeight(x, y);
    var position := Vector3(GridCoordinate(x, columns), Finite(height), GridCoordinate(y, rows));
    vertex := Vertex(position, heightMap.GetNormal(x, y));
  }

  /** The face loops: each cell, column by column, gets the triangles (v0, v1, v2) and (v0, v2, v3). */
  method BuildFaces(columns: int, rows: int) returns (faces: seq<Face>)
    ensures faces == GridFaces(columns, rows)
  {
    ghost var piece := CellFaces(rows);
    faces := [];
    var x := 0;
    while x < columns
      invariant 0 <= x <= if columns < 0 then 0 else columns
      invariant faces == Columns(x, rows, piece)
    {
      ghost var done := faces;
      var y := 0;
      while y < rows
        invariant 0 <= y <= if rows < 0 then 0 else rows
        invariant faces == done + Column(x, y, piece)
      {
        ghost var column := Column(x, y, piece);
        var f0, f1 := CellTriangles(rows, x, y);
        assert piece(x, y) == [f0, f1];
        faces := faces + [f0];
        faces := faces + [f1];
        ColumnGrows(x, y, piece);
        assert faces == done + (column + [f0, f1]);
        y := y + 1;
      }
      ColumnsGrow(x, rows, piece);
      x := x + 1;
    }
  }

  /** The body of the face loops for cell (x, y): the corner indices v0..v3 of
      the cell, with `rows + 1` vertices per column, and its two triangles,
      which share the diagonal from v0 to v2. */
  method CellTriangles(rows: int, x: int, y: int) returns (f0: Face, f1: Face)
    ensures [f0, f1] == CellFaces(rows)(x, y)
  {
    var verticesInColumn := rows + 1;
    var v0 := x * verticesInColumn + y;
    var v1 := (x + 1) * verticesInColumn + y;
    var v2 := (x + 1) * verticesInColumn + y + 1;
    var v3 := x * verticesInColumn + y + 1;
    f0 := Face(v0, v1, v2);
    f1 := Face(v0, v2, v3);
  }

  /** The flat grid: the mesh built from the flat height map. */
  method CreateXZGrid(columns: int, rows: int) returns (mesh: Mesh)
    ensures mesh.vertices == GridVertices(columns, rows, FlatHeightMap)
    ensures mesh.faces == GridFaces(columns, rows)
    ensures forall v | v in mesh.vertices :: v.position.y == Finite(0.0) && v.normal == Up
  {
    mesh := CreateFromHeightMap(columns, rows, FlatHeightMap);
    forall k | 0 <= k < |mesh.vertices|
      ensures mesh.vertices[k].position.y == Finite(0.0) && mesh.vertices[k].normal == Up
    {
      var x, y := GridOrderSlot(columns, rows, VertexOf(columns, rows, FlatHeightMap), k);
    }
  }

  /** The vertex at position x * (rows + 1) + y is the one built at intersection (x, y):
      its height and normal are those the height map gives for (x, y). */
  lemma {:induction false} VertexAt(columns: int, rows: int, heightMap: HeightMap, x: int, y: int)
    requires 0 <= x <= columns && 0 <= y <= rows
    ensures x * (rows + 1) + y < |GridVertices(columns, rows, heightMap)|
    ensures GridVertices(columns, rows, heightMap)[x * (rows + 1) + y] == GridVertex(columns, rows, heightMap, x, y)
    ensures GridVertices(columns, rows, heightMap)[x * (rows + 1) + y].position.y == Finite(heightMap.GetHeight(x, y))
    ensures GridVertices(columns, rows, heightMap)[x * (rows + 1) + y].normal == heightMap.GetNormal(x, y)
  {
    GridOrderAt(columns, rows, (x', y') => GridVertex(columns, rows, heightMap, x', y'), x, y);
  }

  /** Entry x * (rows + 1) + y of the reference order is the value at (x, y). */
  lemma {:induction false} GridOrderAt<V>(columns: int, rows: int, at: (int, int) -> V, x: int, y: int)
    requires 0 <= x <= columns && 0 <= y <= rows
    ensures x * (rows + 1) + y < |GridOrder(columns, rows, at)|
    ensures GridOrder(columns, rows, at)[x * (rows + 1) + y] == at(x, y)
  {
    SingletonsUniform(at);
    ColumnsAt(columns + 1, rows + 1, Singletons(at), 1, x, y, 0);
  }

  /** Conversely, every entry of the reference order is the value of an intersection
      (x, y) of the grid, at index x * (rows + 1) + y. */
  lemma {:induction false} GridOrderSlot<V>(columns: int, rows: int, at: (int, int) -> V, k: int)
    returns (x: int, y: int)
    requires 0 <= k < |GridOrder(columns, rows, at)|
    ensures 0 <= x <= columns && 0 <= y <= rows
    ensures k == x * (rows + 1) + y
    ensures GridOrder(columns, rows, at)[k] == at(x, y)
  {
    SingletonsUniform(at);
    var t;
    x, y, t := ColumnsSlot(columns + 1, rows + 1, Singletons(at), 1, k);
  }

  /** Entries 2k and 2k + 1 of the reference face order are the two triangles of
      cell (x, y), where k = x * rows + y. */
  lemma {:induction false} GridFacesAt(columns: int, rows: int, x: int, y: int)
    requires 0 <= x < columns && 0 <= y < rows
    ensures 2 * (x * rows + y) + 1 < |GridFaces(columns, rows)|
    ensures GridFaces(columns, rows)[2 * (x * rows + y)] == CellFace(rows, x, y, 0)
    ensures GridFaces(columns, rows)[2 * (x * rows + y) + 1] == CellFace(rows, x, y, 1)
  {
    CellFacesUniform(rows);
    ColumnsAt(columns, rows, CellFaces(rows), 2, x, y, 0);
    ColumnsAt(columns, rows, CellFaces(rows), 2, x, y, 1);
  }

  /** Conversely, every face is triangle `half` of some cell (x, y), at index
      2 * (x * rows + y) + half. */
  lemma {:induction false} GridFacesSlot(columns: int, rows: int, k: int) returns (x: int, y: int, half: int)
    requires 0 <= k < |GridFaces(columns, rows)|
    ensures 0 <= x < columns && 0 <= y < rows && 0 <= half < 2
    ensures k == 2 * (x * rows + y) + half
    ensures GridFaces(columns, rows)[k] == CellFace(rows, x, y, half)
  {
    CellFacesUniform(rows);
    x, y, half := ColumnsSlot(columns, rows, CellFaces(rows), 2, k);
  }

  /** For cell (x, y) with k = x * rows + y and stride s = rows + 1, face 2k is (v0, v1, v2)
      and face 2k + 1 is (v0, v2, v3), with v0 = x*s + y, v1 = (x+1)*s + y,
      v2 = (x+1)*s + y + 1 and v3 = x*s + y + 1. */
  lemma {:induction false} FaceAt(columns: int, rows: int, x: int, y: int)
    requires 0 <= x < columns && 0 <= y < rows
    ensures 2 * (x * rows + y) + 1 < |GridFaces(columns, rows)|
    ensures GridFaces(columns, rows)[2 * (x * rows + y)] ==
      Face(x * (rows + 1) + y, (x + 1) * (rows + 1) + y, (x + 1) * (rows + 1) + y + 1)
    ensures GridFaces(columns, rows)[2 * (x * rows + y) + 1] ==
      Face(x * (rows + 1) + y, (x + 1) * (rows + 1) + y + 1, x * (rows + 1) + y + 1)
  {
    GridFacesAt(columns, rows, x, y);
  }

  /** Every face index addresses an existing vertex. */
  lemma {:induction false} FaceIndicesInRange(columns: int, rows: int)
    ensures forall k, t | 0 <= k < |GridFaces(columns, rows)| && 0 <= t < 3 ::
      0 <= Corner(GridFaces(columns, rows)[k], t) < VertexCount(columns, rows)
  {
    var faces := GridFaces(columns, rows);
    forall k, t | 0 <= k < |faces| && 0 <= t < 3
      ensures 0 <= Corner(faces[k], t) < VertexCount(columns, rows)
    {
      var x, y, half := GridFacesSlot(columns, rows, k);
      CellCornersInRange(columns, rows, x, y);
    }
  }

  /** The four corners of cell (x, y) address existing vertices. */
  lemma {:induction false} CellCornersInRange(columns: int, rows: int, x: int, y: int)
    requires 0 <= x < columns && 0 <= y < rows
    ensures var s := rows + 1;
      0 <= x * s + y < VertexCount(columns, rows) &&
      0 <= (x + 1) * s + y < VertexCount(columns, rows) &&
      0 <= (x + 1) * s + y + 1 < VertexCount(columns, rows) &&
      0 <= x * s + y + 1 < VertexCount(columns, rows)
  {
    IndexBelow(x, y, columns + 1, rows + 1);
    IndexBelow(x + 1, y, columns + 1, rows + 1);
    IndexBelow(x + 1, y + 1, columns + 1, rows + 1);
    IndexBelow(x, y + 1, columns + 1, rows + 1);
  }

  /** The bound is tight: the last corner of the last cell is the last vertex. */
  lemma {:induction false} LastCornerIsLastVertex(columns: int, rows: int)
    requires columns >= 1 && rows >= 1
    ensures |GridFaces(columns, rows)| >= 2
    ensures GridFaces(columns, rows)[|GridFaces(columns, rows)| - 2].v2 == VertexCount(columns, rows) - 1
  {
    FaceAt(columns, rows, columns - 1, rows - 1);
    assert 2 * ((columns - 1) * rows + rows - 1) == 2 * columns * rows - 2;
  }

  /** Face `f` contains the directed edge from `a` to `b`. */
  predicate HasEdge(f: Face, a: int, b: int) {
    (f.v0 == a && f.v1 == b) || (f.v1 == a && f.v2 == b) || (f.v2 == a && f.v0 == b)
  }

  /**
   * The two triangles of each cell: each has three distinct indices, the four
   * corners of the cell are distinct, and the triangles share the diagonal
   * v0-v2, which they run through in opposite directions.
   */
  lemma {:induction false} CellTrianglesShareDiagonal(columns: int, rows: int, x: int, y: int)
    requires 0 <= x < columns && 0 <= y < rows
    ensures 2 * (x * rows + y) + 1 < |GridFaces(columns, rows)|
    ensures var f0, f1 := GridFaces(columns, rows)[2 * (x * rows + y)], GridFaces(columns, rows)[2 * (x * rows + y) + 1];
      f0.v0 != f0.v1 && f0.v1 != f0.v2 && f0.v0 != f0.v2 &&
      f1.v0 != f1.v1 && f1.v1 != f1.v2 && f1.v0 != f1.v2 &&
      f0.v1 != f1.v2 &&
      f0.v0 == f1.v0 && f0.v2 == f1.v1 &&
      HasEdge(f0, f0.v2, f0.v0) && HasEdge(f1, f0.v0, f0.v2)
  {
    FaceAt(columns, rows, x, y);
    assert (x + 1) * (rows + 1) == x * (rows + 1) + rows + 1;
  }

  /** Inside the grid, the x and z coordinates of a vertex lie in [-0.5, 0.5]. */
  lemma {:induction false} CoordinatesCentred(columns: int, rows: int, heightMap: HeightMap, x: int, y: int)
    requires 0 <= x <= columns && 0 <= y <= rows && columns >= 1 && rows >= 1
    ensures var p := GridVertex(columns, rows, heightMap, x, y).position;
      p.x.Finite? && -0.5 <= p.x.value <= 0.5 && p.z.Finite? && -0.5 <= p.z.value <= 0.5
  {
    UnitFraction(x, columns);
    UnitFraction(y, rows);
  }

  lemma {:induction false} UnitFraction(i: int, n: int)
    requires 0 <= i <= n && n >= 1
    ensures 0.0 <= i as real / n as real <= 1.0
  {
    assert i as real <= n as real;
  }

  /** The 1 x 1 flat grid: four vertices and the faces (0, 2, 3) and (0, 3, 1). */
  lemma XZGridOneByOne()
    ensures |GridVertices(1, 1, FlatHeightMap)| == 4
    ensures GridFaces(1, 1) == [Face(0, 2, 3), Face(0, 3, 1)]
  {
    FaceAt(1, 1, 0, 0);
  }

  /** The 2 x 2 flat grid: nine vertices, eight faces, and the centre vertex at the origin. */
  lemma XZGridTwoByTwo()
    ensures |GridVertices(2, 2, FlatHeightMap)| == 9
    ensures |GridFaces(2, 2)| == 8
    ensures GridVertices(2, 2, FlatHeightMap)[4].position == Vector3(Finite(0.0), Finite(0.0), Finite(0.0))
  {
    VertexAt(2, 2, FlatHeightMap, 1, 1);
  }
}
