/**
 * The scene's terrain: a `width` x `height` height map is sampled into a 2-D
 * array, then expanded into a flat triangle list with six vertices per grid
 * cell, which is what the vertex buffer receives and what `Draw` draws.
 */
module SceneGraph {
  import opened GridIndex
  import MeshCreator

  /** Length of the expanded vertex array, and the draw count: three vertices per
      triangle, two triangles per cell. */
  function SoupLength(width: int, height: int): int {
    (width - 1) * (height - 1) * 3 * 2
  }

  /** The six vertices emitted for cell (i, j): the triangles (v0, v1, v2) and (v0, v2, v3)
      over the corners v0 = (i, j), v1 = (i+1, j), v2 = (i+1, j+1), v3 = (i, j+1). */
  function CellSoup<T>(f: (int, int) -> T, i: int, j: int): seq<T> {
    [f(i, j), f(i + 1, j), f(i + 1, j + 1), f(i, j), f(i + 1, j + 1), f(i, j + 1)]
  }

  /** The six vertices of every cell. */
  function SoupCells<T>(f: (int, int) -> T): (int, int) -> seq<T> {
    (i, j) => CellSoup(f, i, j)
  }

  /**
   * Reference content of the expanded array for a height map whose sample at
   * (i, j) is `f(i, j)`: the six vertices of every cell of column 0 (rows
   * 0..height-2), then of column 1, and so on up to column width - 2.
   */
  function TriangleSoup<T>(width: int, height: int, f: (int, int) -> T): seq<T> {
    Columns(width - 1, height - 1, SoupCells(f))
  }

  lemma SoupCellsUniform<T>(f: (int, int) -> T)
    ensures Uniform(SoupCells(f), 6)
  {
  }

  /** The expansion has `SoupLength(width, height)` entries, the length of the array that holds it. */
  lemma {:induction false} TriangleSoupLength<T>(width: int, height: int, f: (int, int) -> T)
    requires width >= 1 && height >= 1
    ensures |TriangleSoup(width, height, f)| == SoupLength(width, height)
  {
    SoupCellsUniform(f);
    ColumnsLength(width - 1, height - 1, SoupCells(f), 6);
  }

  /** The height-map fill: entry (i, j) is the sample at (i, j). */
  method FillHeightMap<T(0)>(width: int, height: int, sample: (int, int) -> T) returns (heightMap: array2<T>)
    requires width >= 0 && height >= 0
    ensures heightMap.Length0 == width && heightMap.Length1 == height
    ensures forall i, j | 0 <= i < width && 0 <= j < height :: heightMap[i, j] == sample(i, j)
  {
    heightMap := new T[width, height];
    var i := 0;
    while i < width
      invariant 0 <= i <= width
      invariant forall i', j | 0 <= i' < i && 0 <= j < height :: heightMap[i', j] == sample(i', j)
    {
      var j := 0;
      while j < height
        invariant 0 <= j <= height
        invariant forall i', j' | 0 <= i' < i && 0 <= j' < height :: heightMap[i', j'] == sample(i', j')
        invariant forall j' | 0 <= j' < j :: heightMap[i, j'] == sample(i, j')
      {
        heightMap[i, j] := sample(i, j);
        j := j + 1;
      }
      i := i + 1;
    }
  }

  /**
   * The body of the expansion's inner loop for cell (i, j): it reads the four
   * corner samples v0 = (i, j), v1 = (i+1, j), v2 = (i+1, j+1), v3 = (i, j+1)
   * and writes the triangles (v0, v1, v2) and (v0, v2, v3) to the next six
   * slots. No other slot changes.
   */
  method EmitCell<T>(heightMap: array2<T>, ghost f: (int, int) -> T, vertices: array<T>, i: int, j: int,
                     vertexIndex: int)
    returns (next: int)
    requires forall i, j | 0 <= i < heightMap.Length0 && 0 <= j < heightMap.Length1 :: heightMap[i, j] == f(i, j)
    requires 0 <= i < heightMap.Length0 - 1 && 0 <= j < heightMap.Length1 - 1
    requires 0 <= vertexIndex && vertexIndex + 6 <= vertices.Length
    modifies vertices
    ensures next == vertexIndex + 6
    ensures vertices[..next] == old(vertices[..vertexIndex]) + CellSoup(f, i, j)
    ensures vertices[next..] == old(vertices[next..])
  {
    var v0 := heightMap[i, j];
    var v1 := heightMap[i + 1, j];
    var v2 := heightMap[i + 1, j + 1];
    var v3 := heightMap[i, j + 1];
    ghost var done := vertices[..vertexIndex];
    next := vertexIndex;
    vertices[next] := v0;  next := next + 1;
    assert vertices[..next] == done + [v0];
    vertices[next] := v1;  next := next + 1;
    assert vertices[..next] == done + [v0, v1];
    vertices[next] := v2;  next := next + 1;
    assert vertices[..next] == done + [v0, v1, v2];
    vertices[next] := v0;  next := next + 1;
    assert vertices[..next] == done + [v0, v1, v2, v0];
    vertices[next] := v2;  next := next + 1;
    assert vertices[..next] == done + [v0, v1, v2, v0, v2];
    vertices[next] := v3;  next := next + 1;
    assert vertices[..next] == done + [v0, v1, v2, v0, v2, v3];
  }

  /**
   * The triangle expansion. `f` is the content of the height map (a ghost view
   * of it). Every write is in bounds and the array ends up holding the
   * reference content. Each call of `EmitCell` changes only its own six slots,
   * and successive calls take consecutive ranges that together cover the array.
   */
  method ExpandTriangles<T(0)>(heightMap: array2<T>, ghost f: (int, int) -> T)
    returns (vertices: array<T>)
    requires heightMap.Length0 >= 1 && heightMap.Length1 >= 1
    requires forall i, j | 0 <= i < heightMap.Length0 && 0 <= j < heightMap.Length1 :: heightMap[i, j] == f(i, j)
    ensures vertices.Length == SoupLength(heightMap.Length0, heightMap.Length1)
    ensures vertices[..] == TriangleSoup(heightMap.Length0, heightMap.Length1, f)
  {
    var width, height := heightMap.Length0, heightMap.Length1;
    vertices := new T[SoupLength(width, height)];
    ghost var piece := SoupCells(f);
    var vertexIndex := 0;

    var i := 0;
    while i < width - 1
      invariant 0 <= i <= width - 1
      invariant 0 <= vertexIndex <= vertices.Length
      invariant vertices[..vertexIndex] == Columns(i, height - 1, piece)
    {
      vertexIndex := ExpandColumn(heightMap, f, vertices, i, vertexIndex);
      i := i + 1;
    }
    TriangleSoupLength(width, height, f);
    assert vertices[..] == vertices[..vertexIndex];
  }

  /** The inner loop of the expansion: the cells (i, 0) .. (i, height - 2) of column i. */
  method ExpandColumn<T>(heightMap: array2<T>, ghost f: (int, int) -> T, vertices: array<T>, i: int,
                         vertexIndex: int)
    returns (next: int)
    requires forall i, j | 0 <= i < heightMap.Length0 && 0 <= j < heightMap.Length1 :: heightMap[i, j] == f(i, j)
    requires 0 <= i < heightMap.Length0 - 1
    requires vertices.Length == SoupLength(heightMap.Length0, heightMap.Length1)
    requires 0 <= vertexIndex <= vertices.Length
    requires vertices[..vertexIndex] == Columns(i, heightMap.Length1 - 1, SoupCells(f))
    modifies vertices
    ensures 0 <= next <= vertices.Length
    ensures vertices[..next] == Columns(i + 1, heightMap.Length1 - 1, SoupCells(f))
    ensures vertices[next..] == old(vertices[next..])
  {
    var width, height := heightMap.Length0, heightMap.Length1;
    ghost var piece := SoupCells(f);
    ghost var columns := Columns(i, height - 1, piece);
    next := vertexIndex;
    var j := 0;
    while j < height - 1
      invariant 0 <= j <= height - 1
      invariant 0 <= next <= vertices.Length
      invariant vertices[..next] == columns + Column(i, j, piece)
      invariant vertices[next..] == old(vertices[next..])
    {
      ghost var prefix, current := vertices[..next], vertices[..];
      CellFits(width, height, f, i, j);
      next := EmitCell(heightMap, f, vertices, i, j, next);
      AppendCell(f, i, j, columns, prefix, vertices[..next]);
      LaterSuffix(current, old(vertices[..]), next - 6, next);
      j := j + 1;
    }
    ColumnsGrow(i, height - 1, piece);
  }

  /** One cell's six vertices extend column i by one row. */
  lemma AppendCell<T>(f: (int, int) -> T, i: int, j: int, columns: seq<T>, prefix: seq<T>, written: seq<T>)
    requires j >= 0
    requires prefix == columns + Column(i, j, SoupCells(f))
    requires written == prefix + CellSoup(f, i, j)
    ensures written == columns + Column(i, j + 1, SoupCells(f))
  {
    ColumnGrows(i, j, SoupCells(f));
    assert SoupCells(f)(i, j) == CellSoup(f, i, j);
  }

  /** Two arrays that agree from slot n on also agree from any later slot m. */
  lemma LaterSuffix<T>(a: seq<T>, b: seq<T>, n: int, m: int)
    requires 0 <= n <= m <= |a| == |b|
    requires a[n..] == b[n..]
    ensures a[m..] == b[m..]
  {
    assert a[m..] == a[n..][m - n..];
    assert b[m..] == b[n..][m - n..];
  }

  /** The slots written before cell (i, j), plus its six, fit inside the array. */
  lemma {:induction false} CellFits<T>(width: int, height: int, f: (int, int) -> T, i: int, j: int)
    requires 0 <= i < width - 1 && 0 <= j < height - 1
    ensures |Columns(i, height - 1, SoupCells(f)) + Column(i, j, SoupCells(f))| + 6 <= SoupLength(width, height)
  {
    assert |SoupCells(f)(i, j)| == 6;
    PieceFits(width - 1, height - 1, SoupCells(f), i, j);
    TriangleSoupLength(width, height, f);
  }

  /**
   * For cell (i, j) with base b = 6 * (i * (height - 1) + j), slot b + u holds
   * vertex u of the cell: the samples at (i, j), (i+1, j), (i+1, j+1), (i, j),
   * (i+1, j+1), (i, j+1).
   */
  lemma {:induction false} SoupAt<T>(width: int, height: int, f: (int, int) -> T, i: int, j: int, u: int)
    requires 0 <= i < width - 1 && 0 <= j < height - 1 && 0 <= u < 6
    ensures 6 * (i * (height - 1) + j) + u < |TriangleSoup(width, height, f)|
    ensures TriangleSoup(width, height, f)[6 * (i * (height - 1) + j) + u] == CellSoup(f, i, j)[u]
  {
    SoupCellsUniform(f);
    ColumnsAt(width - 1, height - 1, SoupCells(f), 6, i, j, u);
  }

  /** Conversely, every slot k is vertex u of some cell (i, j) of the grid, with
      k = 6 * (i * (height - 1) + j) + u. */
  lemma {:induction false} SlotOfCell<T>(width: int, height: int, f: (int, int) -> T, k: int)
    returns (i: int, j: int, u: int)
    requires 0 <= k < |TriangleSoup(width, height, f)|
    ensures 0 <= i < width - 1 && 0 <= j < height - 1 && 0 <= u < 6
    ensures k == 6 * (i * (height - 1) + j) + u
    ensures TriangleSoup(width, height, f)[k] == CellSoup(f, i, j)[u]
  {
    SoupCellsUniform(f);
    i, j, u := ColumnsSlot(width - 1, height - 1, SoupCells(f), 6, k);
  }

  /** Every emitted vertex is a height-map sample, and every sample read is inside
      the grid: the loops stop one short of the extents, so i + 1 and j + 1 stay in range. */
  lemma {:induction false} SoupEntriesAreSamples<T>(width: int, height: int, f: (int, int) -> T)
    ensures forall k | 0 <= k < |TriangleSoup(width, height, f)| :: IsSample(TriangleSoup(width, height, f)[k], width, height, f)
  {
    forall k | 0 <= k < |TriangleSoup(width, height, f)|
      ensures IsSample(TriangleSoup(width, height, f)[k], width, height, f)
    {
      var i, j := SampleOfSlot(width, height, f, k);
    }
  }

  /** `v` is the sample at some position of the `width` x `height` grid. */
  ghost predicate IsSample<T>(v: T, width: int, height: int, f: (int, int) -> T) {
    exists i, j :: 0 <= i < width && 0 <= j < height && v == f(i, j)
  }

  /** The grid position whose sample slot k of the expansion holds. */
  lemma {:induction false} SampleOfSlot<T>(width: int, height: int, f: (int, int) -> T, k: int) returns (i: int, j: int)
    requires 0 <= k < |TriangleSoup(width, height, f)|
    ensures 0 <= i < width && 0 <= j < height
    ensures TriangleSoup(width, height, f)[k] == f(i, j)
  {
    var u;
    i, j, u := SlotOfCell(width, height, f, k);
    if u == 1 || u == 2 || u == 4 {
      i := i + 1;
    }
    if u == 2 || u == 4 || u == 5 {
      j := j + 1;
    }
  }

  /**
   * The expansion is the shared-vertex mesh of the same grid with every index
   * replaced by its vertex: vertex t of triangle k of the soup is the sample that
   * corner t of face k of the `(width - 1)` x `(height - 1)` grid mesh points to.
   */
  lemma {:induction false} SoupIsDereferencedMesh<T>(width: int, height: int, f: (int, int) -> T, k: int, t: int)
    requires 0 <= k < |MeshCreator.GridFaces(width - 1, height - 1)| && 0 <= t < 3
    ensures 3 * k + t < |TriangleSoup(width, height, f)|
    ensures 0 <= MeshCreator.Corner(MeshCreator.GridFaces(width - 1, height - 1)[k], t)
                < |MeshCreator.GridOrder(width - 1, height - 1, f)|
    ensures TriangleSoup(width, height, f)[3 * k + t] ==
      MeshCreator.GridOrder(width - 1, height - 1, f)[MeshCreator.Corner(MeshCreator.GridFaces(width - 1, height - 1)[k], t)]
  {
    var columns, rows := width - 1, height - 1;
    var i, j, half := MeshCreator.GridFacesSlot(columns, rows, k);
    MeshCornerIsCellVertex(columns, rows, f, i, j, half, t);
    SoupAt(width, height, f, i, j, 3 * half + t);
  }

  /** Corner t of triangle `half` of cell (i, j) in the grid mesh points at the sample
      that the expansion emits as vertex 3 * half + t of that cell. */
  lemma {:induction false} MeshCornerIsCellVertex<T>(columns: int, rows: int, f: (int, int) -> T, i: int, j: int, half: int, t: int)
    requires 0 <= i < columns && 0 <= j < rows && 0 <= half < 2 && 0 <= t < 3
    ensures 0 <= MeshCreator.Corner(MeshCreator.CellFace(rows, i, j, half), t) < |MeshCreator.GridOrder(columns, rows, f)|
    ensures MeshCreator.GridOrder(columns, rows, f)[MeshCreator.Corner(MeshCreator.CellFace(rows, i, j, half), t)]
      == CellSoup(f, i, j)[3 * half + t]
  {
    if (half == 0 && t == 0) || (half == 1 && t == 0) {
      MeshCreator.GridOrderAt(columns, rows, f, i, j);
    } else if half == 0 && t == 1 {
      MeshCreator.GridOrderAt(columns, rows, f, i + 1, j);
    } else if (half == 0 && t == 2) || (half == 1 && t == 1) {
      MeshCreator.GridOrderAt(columns, rows, f, i + 1, j + 1);
    } else {
      MeshCreator.GridOrderAt(columns, rows, f, i, j + 1);
    }
  }

  /**
   * The scene: the terrain extents (fixed constants in the application), the
   * sampling of the height map, and the vertex data `OnLoad` hands to the
   * vertex buffer.
   */
  class Scene<T(0)> {
    const terrainWidth: int
    const terrainHeight: int
    /** The position of height-map sample (i, j); the noise lookup and its scaling are not modelled. */
    const sample: (int, int) -> T
    /** The vertex data last handed to the vertex buffer. */
    var vertexBuffer: seq<T>
    ghost var loaded: bool

    ghost predicate Valid()
      reads this
    {
      terrainWidth >= 1 && terrainHeight >= 1 &&
      (loaded ==> vertexBuffer == TriangleSoup(terrainWidth, terrainHeight, sample))
    }

    constructor (terrainWidth: int, terrainHeight: int, sample: (int, int) -> T)
      requires terrainWidth >= 1 && terrainHeight >= 1
      ensures Valid() && !loaded && vertexBuffer == []
      ensures this.terrainWidth == terrainWidth && this.terrainHeight == terrainHeight && this.sample == sample
    {
      this.terrainWidth := terrainWidth;
      this.terrainHeight := terrainHeight;
      this.sample := sample;
      vertexBuffer := [];
      loaded := false;
    }

    /** Samples the height map, expands it into triangles and hands the result to the vertex buffer. */
    method OnLoad()
      requires Valid()
      modifies this`vertexBuffer, this`loaded
      ensures Valid() && loaded
      ensures vertexBuffer == TriangleSoup(terrainWidth, terrainHeight, sample)
      ensures |vertexBuffer| == SoupLength(terrainWidth, terrainHeight)
    {
      var heightMap := FillHeightMap(terrainWidth, terrainHeight, sample);
      var vertices := ExpandTriangles(heightMap, sample);
      vertexBuffer := vertices[..];
      loaded := true;
      TriangleSoupLength(terrainWidth, terrainHeight, sample);
    }

    /** The draw call: the number of vertices it draws. */
    method Draw() returns (count: int)
      requires Valid()
      ensures loaded ==> count == |vertexBuffer|
    {
      count := (terrainWidth - 1) * (terrainHeight - 1) * 3 * 2;
      TriangleSoupLength(terrainWidth, terrainHeight, sample);
    }
  }
}
