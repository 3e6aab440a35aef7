/**
 The integer geometry of the terrain chunk grid: how many chunks, vertices and
 indices a (radius, detail) configuration needs, which buffer slot a chunk
 occupies, and where each vertex and index of a chunk's mesh lives.
 Everything here is a pure function of the configuration; the renderer that
 writes these layouts into its buffers is in module Renderer.
 */
module TerrainGeometry {

  /** Largest value of a 32-bit C++ `int`, the type of every count in the renderer. */
  const IntMax: int := 0x7fff_ffff

  function Sq(n: int): int { n * n }

  // ---------------------------------------------------------------------------
  // Capacity planning

  /** Chunks in the grid: 2*radius - 1 along each axis. */
  function ChunkCount(radius: int): int { Sq(2 * radius - 1) }

  /** Indices per chunk: two triangles of three indices for each of the detail^2 sub-cells. */
  function ElementsPerChunk(detail: int): int { 2 * 3 * Sq(detail) }

  /** Vertices per chunk: a (detail+1) x (detail+1) grid. */
  function VerticesPerChunk(detail: int): int { Sq(detail + 1) }

  /**
   A configuration the renderer accepts: at least one chunk, at least one
   sub-cell per chunk edge, and a total index count (the largest count the
   renderer computes) that fits in a C++ `int`.
   */
  predicate Configured(radius: int, detail: int)
  {
    radius >= 1 && detail >= 1 && ElementsPerChunk(detail) * ChunkCount(radius) <= IntMax
  }

  /** Each size is positive, a chunk has fewer vertices than indices, and every count fits in an `int`. */
  lemma SizesBounded(radius: int, detail: int)
    requires Configured(radius, detail)
    ensures 1 <= ChunkCount(radius)
    ensures 4 <= VerticesPerChunk(detail) < ElementsPerChunk(detail)
    ensures VerticesPerChunk(detail) * ChunkCount(radius) < ElementsPerChunk(detail) * ChunkCount(radius) <= IntMax
  {
  }

  /**
   Sizes of small configurations: radius 1 is a single chunk, radius 3 a 5 x 5
   grid; detail 1 is one quad; radius 2, detail 2 puts chunk (0, 0) in the
   middle slot 4, whose vertices start at buffer element 36.
   */
  lemma ExampleSizes()
    ensures ChunkCount(1) == 1 && ChunkCount(3) == 25
    ensures VerticesPerChunk(1) == 4 && ElementsPerChunk(1) == 6
    ensures ChunkCount(2) == 9 && ElementsPerChunk(2) == 24 && VerticesPerChunk(2) == 9
    ensures SlotOffset(2, 0, 0) == 4 && SlotStart(VerticesPerChunk(2), SlotOffset(2, 0, 0)) == 36
  {
  }

  // ---------------------------------------------------------------------------
  // Chunk-to-slot mapping

  predicate InGrid(radius: int, c: int)
  {
    -(radius - 1) <= c <= radius - 1
  }

  /**
   The buffer slot of the chunk at grid coordinate (cx, cy): row-major over the
   grid. Every chunk of the grid gets a slot inside the buffers' chunk capacity.
   */
  function SlotOffset(radius: int, cx: int, cy: int): (offset: nat)
    requires radius >= 1 && InGrid(radius, cx) && InGrid(radius, cy)
    ensures offset < ChunkCount(radius)
  {
    RowMajorBound(cx + radius - 1, cy + radius - 1, 2 * radius - 1);
    (cx + radius - 1) * (2 * radius - 1) + (cy + radius - 1)
  }

  /** The grid coordinate whose chunk occupies the given slot: the inverse of SlotOffset. */
  function SlotCoords(radius: int, offset: int): (c: (int, int))
    requires radius >= 1 && 0 <= offset < ChunkCount(radius)
    ensures InGrid(radius, c.0) && InGrid(radius, c.1)
    ensures SlotOffset(radius, c.0, c.1) == offset
  {
    var s := 2 * radius - 1;
    var q, r := offset / s, offset % s;
    QuotientBelow(offset, s);
    (q - (radius - 1), r - (radius - 1))
  }

  /** Slot to coordinate and back: SlotCoords undoes SlotOffset on the whole grid. */
  lemma SlotCoordsOfOffset(radius: int, cx: int, cy: int)
    requires radius >= 1 && InGrid(radius, cx) && InGrid(radius, cy)
    ensures SlotCoords(radius, SlotOffset(radius, cx, cy)) == (cx, cy)
  {
    DivModUnique(cx + radius - 1, cy + radius - 1, 2 * radius - 1);
  }

  /** No two chunks of the grid share a slot. */
  lemma SlotOffsetInjective(radius: int, cx: int, cy: int, cx': int, cy': int)
    requires radius >= 1
    requires InGrid(radius, cx) && InGrid(radius, cy) && InGrid(radius, cx') && InGrid(radius, cy')
    requires SlotOffset(radius, cx, cy) == SlotOffset(radius, cx', cy')
    ensures cx == cx' && cy == cy'
  {
    SlotCoordsOfOffset(radius, cx, cy);
    SlotCoordsOfOffset(radius, cx', cy');
  }

  /** Every slot holds some chunk of the grid. */
  lemma SlotOffsetOnto(radius: int, offset: int)
    requires radius >= 1 && 0 <= offset < ChunkCount(radius)
    ensures exists cx, cy :: InGrid(radius, cx) && InGrid(radius, cy) && SlotOffset(radius, cx, cy) == offset
  {
    var c := SlotCoords(radius, offset);
    assert InGrid(radius, c.0) && InGrid(radius, c.1) && SlotOffset(radius, c.0, c.1) == offset;
  }

  /** First buffer element of slot `offset` when every slot is `size` elements wide. */
  function SlotStart(size: nat, offset: nat): nat
  {
    size * offset
  }

  /** The window of `size` buffer elements that slot `offset` owns. */
  predicate InSlot(k: int, size: nat, offset: nat)
  {
    SlotStart(size, offset) <= k < SlotStart(size, offset) + size
  }

  /** The window of a slot below `count` lies inside a buffer of `size * count` elements. */
  lemma SlotInBuffer(size: nat, offset: nat, count: nat)
    requires offset < count
    ensures SlotStart(size, offset) + size <= size * count
  {
    MulMonotone(size, offset + 1, size, count);
    assert size * (offset + 1) == size * offset + size;
  }

  /** Distinct slots own disjoint windows. */
  lemma SlotsDisjoint(size: nat, o: nat, o': nat, k: int)
    requires o != o' && InSlot(k, size, o)
    ensures !InSlot(k, size, o')
  {
    if o < o' {
      MulMonotone(size, o + 1, size, o');
      assert SlotStart(size, o) + size <= SlotStart(size, o');
    } else {
      MulMonotone(size, o' + 1, size, o);
      assert SlotStart(size, o') + size <= SlotStart(size, o);
    }
  }

  /**
   Distinct chunks own disjoint windows of every buffer whose slots are `size`
   elements wide, inside the buffer's `size * ChunkCount` elements: writing
   one chunk's window never touches another's.
   */
  lemma DistinctChunksDisjoint(radius: int, size: nat, cx: int, cy: int, cx': int, cy': int, k: int)
    requires radius >= 1
    requires InGrid(radius, cx) && InGrid(radius, cy) && InGrid(radius, cx') && InGrid(radius, cy')
    requires (cx, cy) != (cx', cy')
    requires InSlot(k, size, SlotOffset(radius, cx, cy))
    ensures !InSlot(k, size, SlotOffset(radius, cx', cy'))
    ensures 0 <= k < size * ChunkCount(radius)
  {
    var o, o' := SlotOffset(radius, cx, cy), SlotOffset(radius, cx', cy');
    if o == o' {
      SlotOffsetInjective(radius, cx, cy, cx', cy');
      assert false;
    }
    SlotsDisjoint(size, o, o', k);
    SlotInBuffer(size, o, ChunkCount(radius));
  }

  // ---------------------------------------------------------------------------
  // Vertex layout

  /**
   One vertex as the renderer stores it: position (x, y, height) and texture
   coordinates (u, v). Coordinates are exact reals here.
   */
  datatype Vertex = Vertex(x: real, y: real, height: real, u: real, v: real)

  /**
   The vertex at row i, column j of a chunk whose local frame has its origin at
   world coordinate (coordX, coordY).
   */
  function GridVertex(detail: int, coordX: int, coordY: int, i: int, j: int, height: real): Vertex
    requires detail >= 1
  {
    var x := coordX as real + 1.0 * i as real / detail as real - 0.5;
    var y := coordY as real + 1.0 * j as real / detail as real - 0.5;
    Vertex(x, y, height, x - coordX as real, y - coordY as real)
  }

  /** The c-th vertex of a chunk's vertex block: row-major over the (detail+1) x (detail+1) grid. */
  function ChunkVertex(detail: int, coordX: int, coordY: int, heights: seq<real>, c: int): Vertex
    requires detail >= 1 && 0 <= c < |heights|
  {
    GridVertex(detail, coordX, coordY, c / (detail + 1), c % (detail + 1), heights[c])
  }

  /** The first n vertices of a chunk's vertex block, in order. */
  function VertexPrefix(detail: int, coordX: int, coordY: int, heights: seq<real>, n: nat): (r: seq<Vertex>)
    requires detail >= 1 && n <= |heights|
    ensures |r| == n
  {
    if n == 0 then [] else VertexPrefix(detail, coordX, coordY, heights, n - 1) + [ChunkVertex(detail, coordX, coordY, heights, n - 1)]
  }

  /** Entry c of any prefix of the vertex block is the c-th vertex of the block. */
  lemma {:induction false} VertexPrefixAt(detail: int, coordX: int, coordY: int, heights: seq<real>, n: nat, c: nat)
    requires detail >= 1 && c < n <= |heights|
    ensures VertexPrefix(detail, coordX, coordY, heights, n)[c] == ChunkVertex(detail, coordX, coordY, heights, c)
  {
    if c < n - 1 {
      VertexPrefixAt(detail, coordX, coordY, heights, n - 1, c);
    }
  }

  /**
   Grid position (i, j) is the vertex numbered i*(detail+1)+j, that number is
   inside the chunk's vertex block, and the vertex there carries height sample
   number i*(detail+1)+j.
   */
  lemma ChunkVertexAt(detail: int, coordX: int, coordY: int, heights: seq<real>, i: int, j: int)
    requires detail >= 1 && |heights| >= VerticesPerChunk(detail)
    requires 0 <= i <= detail && 0 <= j <= detail
    ensures 0 <= i * (detail + 1) + j < VerticesPerChunk(detail)
    ensures ChunkVertex(detail, coordX, coordY, heights, i * (detail + 1) + j)
         == GridVertex(detail, coordX, coordY, i, j, heights[i * (detail + 1) + j])
  {
    var n := detail + 1;
    DivModUnique(i, j, n);
    MulMonotone(i, n, detail, n);
    assert detail * n + j < n * n;
  }

  /**
   The vertex of grid position (i, j) has texture coordinates in [-0.5, 0.5]^2,
   reaching -0.5 on the first row (column) and 0.5 on the last.
   */
  lemma GridVertexTexCoords(detail: int, coordX: int, coordY: int, i: int, j: int, height: real)
    requires detail >= 1 && 0 <= i <= detail && 0 <= j <= detail
    ensures var w := GridVertex(detail, coordX, coordY, i, j, height);
      && -0.5 <= w.u <= 0.5 && -0.5 <= w.v <= 0.5
      && (i == 0 ==> w.u == -0.5) && (i == detail ==> w.u == 0.5)
      && (j == 0 ==> w.v == -0.5) && (j == detail ==> w.v == 0.5)
  {
  }

  // ---------------------------------------------------------------------------
  // Index layout

  /**
   The six indices of sub-cell (i, j), whose top-left vertex is number
   vertexOffset + (detail+1)*i + j: triangles (TL, TR, BL) and (BR, TR, BL).
   */
  function CellIndices(detail: nat, vertexOffset: nat, i: nat, j: nat): (r: seq<nat>)
    ensures |r| == 6
  {
    var tl := vertexOffset + (detail + 1) * i + j;
    var tr := tl + 1;
    var bl := tl + (detail + 1);
    var br := bl + 1;
    [tl, tr, bl, br, tr, bl]
  }

  /** The indices of the first `cols` sub-cells of row i of a chunk, six per sub-cell. */
  function ElementRow(detail: nat, vertexOffset: nat, i: nat, cols: nat): (r: seq<nat>)
    ensures |r| == 6 * cols
  {
    if cols == 0 then [] else ElementRow(detail, vertexOffset, i, cols - 1) + CellIndices(detail, vertexOffset, i, cols - 1)
  }

  /**
   The indices of the first `rows` rows of sub-cells of a chunk, rows in order.
   The chunk's whole index block is ElementRows(detail, vertexOffset, detail).
   */
  function ElementRows(detail: nat, vertexOffset: nat, rows: nat): (r: seq<nat>)
    ensures |r| == 6 * (rows * detail)
  {
    if rows == 0 then []
    else
      var r := ElementRows(detail, vertexOffset, rows - 1) + ElementRow(detail, vertexOffset, rows - 1, detail);
      assert (rows - 1) * detail + detail == rows * detail;
      r
  }

  /** Entry k of sub-cell j sits at position 6*j + k of its row. */
  lemma {:induction false} ElementRowAt(detail: nat, vertexOffset: nat, i: nat, cols: nat, j: nat, k: nat)
    requires j < cols && k < 6
    ensures ElementRow(detail, vertexOffset, i, cols)[6 * j + k] == CellIndices(detail, vertexOffset, i, j)[k]
  {
    if j < cols - 1 {
      ElementRowAt(detail, vertexOffset, i, cols - 1, j, k);
    }
  }

  /** Entry p of row i sits at position 6*(i*detail) + p of the rows up to and including i. */
  lemma {:induction false} ElementRowsAt(detail: nat, vertexOffset: nat, rows: nat, i: nat, p: nat)
    requires i < rows && p < 6 * detail
    ensures 6 * (i * detail) + p < |ElementRows(detail, vertexOffset, rows)|
    ensures ElementRows(detail, vertexOffset, rows)[6 * (i * detail) + p] == ElementRow(detail, vertexOffset, i, detail)[p]
  {
    MulMonotone(i + 1, detail, rows, detail);
    if i < rows - 1 {
      ElementRowsAt(detail, vertexOffset, rows - 1, i, p);
    }
  }

  /**
   The six indices of sub-cell (i, j) sit at positions 6*(i*detail+j) .. +5 of
   the chunk's index block, inside the block's ElementsPerChunk entries.
   */
  lemma ChunkElementsCell(detail: nat, vertexOffset: nat, i: nat, j: nat, k: nat)
    requires i < detail && j < detail && k < 6
    ensures 6 * (i * detail + j) + k < ElementsPerChunk(detail)
    ensures ElementRows(detail, vertexOffset, detail)[6 * (i * detail + j) + k]
         == CellIndices(detail, vertexOffset, i, j)[k]
  {
    ElementRowAt(detail, vertexOffset, i, detail, j, k);
    ElementRowsAt(detail, vertexOffset, detail, i, 6 * j + k);
  }

  /** Every index of a sub-cell names a vertex of the same chunk. */
  lemma CellIndicesInSlot(detail: nat, vertexOffset: nat, i: nat, j: nat)
    requires detail >= 1 && i < detail && j < detail
    ensures forall k :: 0 <= k < 6 ==>
      vertexOffset <= CellIndices(detail, vertexOffset, i, j)[k] < vertexOffset + VerticesPerChunk(detail)
  {
    var n := detail + 1;
    MulMonotone(n, i, n, detail - 1);
    assert n * (detail - 1) + (detail - 1) + n + 1 < n * n;
  }

  /**
   Every entry of a chunk's index block lies in [vertexOffset, vertexOffset +
   VerticesPerChunk): a chunk's triangles reference only its own vertices.
   */
  lemma ChunkElementsInSlot(detail: nat, vertexOffset: nat, p: nat)
    requires detail >= 1 && p < ElementsPerChunk(detail)
    ensures vertexOffset <= ElementRows(detail, vertexOffset, detail)[p] < vertexOffset + VerticesPerChunk(detail)
  {
    var c, k := p / 6, p % 6;
    QuotientBelow(c, detail);
    var i, j := c / detail, c % detail;
    assert p == 6 * (i * detail + j) + k;
    ChunkElementsCell(detail, vertexOffset, i, j, k);
    CellIndicesInSlot(detail, vertexOffset, i, j);
  }

  /** Row and column, in the chunk's vertex grid, of vertex number `index` of the block starting at vertexOffset. */
  function GridPoint(detail: nat, vertexOffset: nat, index: int): (int, int)
  {
    ((index - vertexOffset) / (detail + 1), (index - vertexOffset) % (detail + 1))
  }

  /** Twice the signed area of the triangle (a, b, c) of vertex numbers, in grid coordinates. */
  function Orientation(detail: nat, vertexOffset: nat, a: int, b: int, c: int): int
  {
    var (ai, aj) := GridPoint(detail, vertexOffset, a);
    var (bi, bj) := GridPoint(detail, vertexOffset, b);
    var (ci, cj) := GridPoint(detail, vertexOffset, c);
    (bi - ai) * (cj - aj) - (bj - aj) * (ci - ai)
  }

  /**
   The two triangles of a sub-cell share the diagonal TR-BL, together use all
   four corners of the cell, are both non-degenerate, and are wound in
   opposite directions in grid coordinates.
   */
  lemma CellTriangles(detail: nat, vertexOffset: nat, i: nat, j: nat)
    requires detail >= 1 && i < detail && j < detail
    ensures var r := CellIndices(detail, vertexOffset, i, j);
      && r[1] == r[4] && r[2] == r[5]
      && GridPoint(detail, vertexOffset, r[0]) == (i, j)
      && GridPoint(detail, vertexOffset, r[1]) == (i, j + 1)
      && GridPoint(detail, vertexOffset, r[2]) == (i + 1, j)
      && GridPoint(detail, vertexOffset, r[3]) == (i + 1, j + 1)
      && Orientation(detail, vertexOffset, r[0], r[1], r[2]) == -1
      && Orientation(detail, vertexOffset, r[3], r[4], r[5]) == 1
  {
    var tl := vertexOffset + (detail + 1) * i + j;
    GridPointOf(detail, vertexOffset, i, j);
    GridPointOf(detail, vertexOffset, i, j + 1);
    GridPointOf(detail, vertexOffset, i + 1, j);
    GridPointOf(detail, vertexOffset, i + 1, j + 1);
    assert tl + 1 == vertexOffset + (detail + 1) * i + (j + 1);
    assert tl + (detail + 1) == vertexOffset + (detail + 1) * (i + 1) + j;
    assert tl + (detail + 1) + 1 == vertexOffset + (detail + 1) * (i + 1) + (j + 1);
  }

  /** Vertex number vertexOffset + (detail+1)*i + j sits at row i, column j of the chunk's vertex grid. */
  lemma GridPointOf(detail: nat, vertexOffset: nat, i: int, j: int)
    requires 0 <= j <= detail
    ensures GridPoint(detail, vertexOffset, vertexOffset + (detail + 1) * i + j) == (i, j)
  {
    assert vertexOffset + (detail + 1) * i + j - vertexOffset == i * (detail + 1) + j;
    DivModUnique(i, j, detail + 1);
  }

  // ---------------------------------------------------------------------------
  // Arithmetic helpers

  /** Row-major position a*s + b of a cell in an s x s grid lies in [0, s*s). */
  lemma RowMajorBound(a: int, b: int, s: int)
    requires 0 <= a < s && 0 <= b < s
    ensures 0 <= a * s + b < s * s
  {
    MulMonotone(0, a, s, s - 1);
    MulMonotone(a, s, s - 1, s);
    assert (s - 1) * s + s == s * s;
  }

  lemma MulAtLeast(a: int, b: int)
    requires a >= 1 && b >= 0
    ensures a * b >= b
  {
  }

  lemma MulMonotone(a: int, b: int, c: int, d: int)
    requires 0 <= a <= c && 0 <= b <= d
    ensures a * b <= c * d
  {
  }

  lemma MulStrict(a: int, b: int, n: int)
    requires a < b && n >= 1
    ensures a * n < b * n
  {
  }

  /** Euclidean division is unique: q*n + r with 0 <= r < n has quotient q and remainder r. */
  lemma DivModUnique(q: int, r: int, n: int)
    requires n > 0 && 0 <= r < n
    ensures (q * n + r) / n == q && (q * n + r) % n == r
  {
    var a := q * n + r;
    var q', r' := a / n, a % n;
    assert q' * n + r' == a && 0 <= r' < n;
    assert (q - q') * n == r' - r;
    if q' < q {
      MulAtLeast(q - q', n);
      assert false;
    } else if q' > q {
      MulAtLeast(q' - q, n);
      assert false;
    }
  }

  /** A number below s*s has quotient below s when divided by s. */
  lemma QuotientBelow(a: int, s: int)
    requires s >= 1 && 0 <= a < s * s
    ensures 0 <= a / s < s && 0 <= a % s < s
  {
  }
}
