# Terrain renderer model

A Dafny model of the terrain renderer in `src/TerrainRenderer.cpp`. The
renderer draws a square grid of terrain chunks. The grid has radius `radius`,
so it holds (2·radius−1)² chunks. Each chunk is a (detail+1) × (detail+1)
vertex grid cut into detail² sub-cells, and each sub-cell is drawn as two
triangles. All chunks share one vertex buffer and one index buffer. Each
chunk owns a fixed-size slot in both buffers, chosen by its grid position
in row-major order.

The model has two modules:

- `TerrainGeometry` (`terrain_geometry.dfy`) holds the pure part:
  - the size formulas and the bound that keeps them inside `int`;
  - the slot map from chunk coordinates to a slot, with its inverse;
  - slot windows and their disjointness;
  - the vertex block and the index block of one chunk, defined as recursive
    specification functions that follow the renderer's loops;
  - lemmas about these.
- `Renderer` (`terrain_renderer.dfy`) holds the stateful part:
  - the class `TerrainRenderer`, whose two GPU buffers are Dafny arrays;
  - `Reset`, which reallocates the arrays;
  - `UpdateChunk`, which builds the two blocks with nested loops
    (`BuildVertices`, `BuildElements`) and writes them into the chunk's
    slots (`SubData`);
  - `Draw`, which returns the number of indices it submits;
  - read-back lemmas about the written buffers.

Floating-point coordinates are modelled as exact reals. The `int` arithmetic
of the renderer is kept overflow-free by a precondition (`Configured`): the
index-buffer length 6·detail²·(2·radius−1)² must fit in a signed 32-bit `int`.
Given that bound, every size fits as well (`SizesBounded`), every slot window
lies inside its buffer (`SlotInBuffer`, and the window bounds in the contract
of `UpdateChunk`), and every index written is below the vertex buffer's length
(`UpdateChunk`).

Where the code leaves its inputs unchecked, the model states what it relies
on:

- The code never checks the length of the height samples. It reads the first
  (detail+1)² of them, so the model requires at least that many and ignores
  the rest. It does not reject inputs of any other length.
- The code never checks `radius`, `detail` or the chunk coordinates. The model
  states as preconditions what the code silently relies on: radius ≥ 1,
  detail ≥ 1, and chunk coordinates within −(radius−1) … radius−1.

## Model

| member | source | states |
|---|---|---|
| TerrainGeometry.ChunkCount | src/TerrainRenderer.cpp:46 | Defines the chunk count as (2·radius−1)²: 2·radius−1 chunks along each axis |
| TerrainGeometry.ElementsPerChunk | src/TerrainRenderer.cpp:47 | Defines the indices per chunk as 2·3·detail²: two triangles of three indices per sub-cell |
| TerrainGeometry.VerticesPerChunk | src/TerrainRenderer.cpp:48 | Defines the vertices per chunk as (detail+1)²: the (detail+1) × (detail+1) vertex grid |
| TerrainGeometry.SizesBounded | src/TerrainRenderer.cpp:46-48 | For a configured grid: at least one chunk; at least 4 vertices per chunk and more indices than vertices per chunk; both buffer lengths (vertices·chunks < indices·chunks) fit in a 32-bit `int` |
| TerrainGeometry.ExampleSizes | src/TerrainRenderer.cpp:46-48 | radius 1 gives 1 chunk and radius 3 gives 25. Detail 1 gives 4 vertices and 6 indices. Radius 2, detail 2 gives 9 chunks, 24 indices and 9 vertices per chunk, and chunk (0,0) is slot 4, whose vertex slot starts at vertex 36 |
| TerrainGeometry.SlotOffset | src/TerrainRenderer.cpp:95 | The row-major slot of an in-grid chunk is a natural number below the chunk count |
| TerrainGeometry.SlotCoords | src/TerrainRenderer.cpp:95 | Every slot below the chunk count comes from an in-grid chunk whose slot is that offset (right inverse of the slot map) |
| TerrainGeometry.SlotCoordsOfOffset | src/TerrainRenderer.cpp:95 | Decoding the slot of an in-grid chunk gives back that chunk's coordinates (left inverse) |
| TerrainGeometry.SlotOffsetInjective | src/TerrainRenderer.cpp:95 | Two in-grid chunks share a slot only if they are the same chunk |
| TerrainGeometry.SlotOffsetOnto | src/TerrainRenderer.cpp:95 | Every slot below the chunk count is the slot of some in-grid chunk; with injectivity, the slot map is a bijection between the grid and 0 … chunks−1 |
| TerrainGeometry.SlotStart | src/TerrainRenderer.cpp:100 | Defines the first element of slot `offset` in a buffer of `size`-element slots as size·offset: `vertex_offset` for the vertex slot, and the element offsets of both uploads at lines 120-123 |
| TerrainGeometry.SlotInBuffer | src/TerrainRenderer.cpp:120-123 | The window of slot `offset` (start size·offset, length size) lies inside a buffer of size·count elements whenever offset < count |
| TerrainGeometry.SlotsDisjoint | src/TerrainRenderer.cpp:120-123 | An element inside the window of one slot lies in no other slot's window |
| TerrainGeometry.DistinctChunksDisjoint | src/TerrainRenderer.cpp:120-123 | An element of one chunk's window lies inside the buffer and in no other in-grid chunk's window |
| TerrainGeometry.GridVertex | src/TerrainRenderer.cpp:88-91 | Defines the vertex at row i, column j: x = coordX + i/detail − 0.5, y = coordY + j/detail − 0.5, the given height, and texture coordinates (x − coordX, y − coordY) |
| TerrainGeometry.ChunkVertex | src/TerrainRenderer.cpp:84-91 | Defines the c-th vertex of a chunk as the grid vertex at row c/(detail+1), column c%(detail+1), with height sample c, as the loop counter c of line 84 numbers them |
| TerrainGeometry.VertexPrefix | src/TerrainRenderer.cpp:84-93 | Defines the first n vertices the loop appends, in order; the result has exactly n entries |
| TerrainGeometry.VertexPrefixAt | src/TerrainRenderer.cpp:84-93 | The c-th vertex the loop appends is the grid vertex at row c/(detail+1), column c%(detail+1), carrying height sample c |
| TerrainGeometry.ChunkVertexAt | src/TerrainRenderer.cpp:84-91 | The vertex at grid position (i, j) is vertex number c = i·(detail+1)+j, with c below the vertices per chunk, and it carries height sample c |
| TerrainGeometry.GridVertexTexCoords | src/TerrainRenderer.cpp:88-91 | Texture coordinates lie in [−0.5, 0.5] and reach −0.5 at i = 0 (or j = 0) and 0.5 at i = detail (or j = detail) |
| TerrainGeometry.CellIndices | src/TerrainRenderer.cpp:104-110 | Defines the six indices pushed for sub-cell (i, j): TL = vertexOffset + (detail+1)·i + j, TR = TL + 1, BL = TL + detail + 1, BR = BL + 1, in the order TL, TR, BL, BR, TR, BL; exactly six entries |
| TerrainGeometry.ElementRow | src/TerrainRenderer.cpp:102-111 | Defines the indices pushed by the first `cols` iterations of the inner loop for row i, sub-cells in column order; 6·cols entries |
| TerrainGeometry.ElementRows | src/TerrainRenderer.cpp:98-114 | The index block of `rows` rows of sub-cells has 6·rows·detail entries; for rows = detail that is the elements per chunk |
| TerrainGeometry.ElementRowAt | src/TerrainRenderer.cpp:102-110 | Entry 6·j+k of one row of sub-cells is entry k of the six indices of sub-cell (i, j) |
| TerrainGeometry.ElementRowsAt | src/TerrainRenderer.cpp:100-112 | For i < rows, entry 6·(i·detail)+p of the first `rows` rows of sub-cells is entry p of row i, and that position lies inside the block |
| TerrainGeometry.ChunkElementsCell | src/TerrainRenderer.cpp:100-112 | Entry 6·(i·detail+j)+k of a chunk's index block lies below the elements per chunk and is entry k of sub-cell (i, j): the TL, TR, BL, BR, TR, BL layout |
| TerrainGeometry.CellIndicesInSlot | src/TerrainRenderer.cpp:104-110 | All six indices of a sub-cell name vertices of the chunk's own vertex slot |
| TerrainGeometry.ChunkElementsInSlot | src/TerrainRenderer.cpp:100-112 | Every entry of a chunk's index block lies in [vertexOffset, vertexOffset + verticesPerChunk) |
| TerrainGeometry.CellTriangles | src/TerrainRenderer.cpp:104-110 | The two triangles of a sub-cell share the TR and BL vertices. The four indices decode to grid points (i,j), (i,j+1), (i+1,j), (i+1,j+1). The first triangle has orientation −1 in grid coordinates and the second +1 |
| Renderer.SubData | src/TerrainRenderer.cpp:120-123 | A partial buffer upload overwrites exactly the window [start, start+\|data\|) with `data`; every other element is unchanged |
| Renderer.WindowWritten | src/TerrainRenderer.cpp:120-123 | Defines the effect of a partial upload: the new buffer has the old length, the window [start, start+\|block\|) lies inside it and holds `block`, and every element outside the window is the old one |
| Renderer.ReadBackVertex | src/TerrainRenderer.cpp:84-121 | After a chunk's vertex block is written at `start`, the element at start + i·(detail+1)+j is the grid vertex (i, j) and has height sample i·(detail+1)+j |
| Renderer.ReadBackCell | src/TerrainRenderer.cpp:104-123 | After a chunk's index block is written at `start`, entry start + 6·(i·detail+j)+k is entry k of sub-cell (i, j) |
| Renderer.OtherChunkUntouched | src/TerrainRenderer.cpp:120-123 | Writing one chunk's window leaves every element of any other chunk's window unchanged |
| Renderer.BuildVertices | src/TerrainRenderer.cpp:82-93 | The nested loop produces exactly the (detail+1)² vertices of the chunk, vertex c being the grid vertex of row c/(detail+1), column c%(detail+1) with height sample c |
| Renderer.BuildElements | src/TerrainRenderer.cpp:98-114 | The nested loop produces exactly elements-per-chunk indices: the specification index block, six per sub-cell in row-major order |
| Renderer.TerrainRenderer.Valid | src/TerrainRenderer.cpp:46-60 | Defines the state after a reset: a configuration within the `int` bound, the three derived counts equal to their formulas, and buffers of vertices·chunks and elements·chunks entries |
| Renderer.TerrainRenderer.constructor | src/TerrainRenderer.cpp:12-23 | Records radius and detail and starts with two fresh, empty buffers |
| Renderer.TerrainRenderer.Reset | src/TerrainRenderer.cpp:41-60 | Stores radius and detail. Sets chunks = (2r−1)², elements per chunk = 6d², vertices per chunk = (d+1)². Allocates fresh buffers of vertices·chunks and elements·chunks entries, which establishes the class invariant |
| Renderer.TerrainRenderer.Draw | src/TerrainRenderer.cpp:73-78 | The count submitted is the whole index buffer: a positive multiple of 3, at least 6 and within `int` |
| Renderer.TerrainRenderer.UpdateChunk | src/TerrainRenderer.cpp:80-126 | Keeps the class invariant. Writes the chunk's vertex block into its vertex slot and its index block, shifted by the slot's first vertex, into its index slot. Both slot windows lie inside their buffers. Leaves every other element of both buffers unchanged. Every index written lies in the chunk's own vertex slot and inside the vertex buffer |

## Left out

- The constructor's GL object creation and shader loading (lines 17-30) and the destructor (lines 33-39) have no model. They only acquire and release GPU handles and log.
- Renderer.TerrainRenderer.constructor: sets the three derived counts to 0. The source leaves them uninitialised until `reset`. Draw and UpdateChunk require the class invariant that only Reset establishes, so a call before `reset` has no model.
- The log output (lines 50-54), the shader attribute and uniform setup (lines 62-68), vertex-array binding, and `ASSERT_GL_ERRORS` are not modelled. They are GL or logging side effects that do not change the buffers or the counts.
- Renderer.TerrainRenderer.Draw: returns the count it would pass to `glDrawElements`. The rasterisation itself is GPU work outside this model.
- Renderer.TerrainRenderer.Reset: says nothing about the contents of the new buffers. The source allocates them without data, so their contents are undefined until chunks are written.
- Vertex coordinates are exact reals, not 32-bit floats. The rounding of `1.0f * i / detail`, the subtractions and the texture coordinates is not modelled. Neither is the loss of precision for large world coordinates.
- The 32-bit `int` and `GLuint` arithmetic is not modelled with wrap-around. Instead `Configured`, which Reset requires, bounds 6·detail²·(2·radius−1)² by 2³¹−1, so no size, offset or index overflows. Configurations beyond that bound, where the source would overflow, are outside the model.
- Renderer.BuildElements: appends the six indices of a sub-cell as one six-element block (`CellIndices`) rather than six separate pushes. The resulting sequence is the same.
- Buffer sizes in bytes (`sizeof(Vertex)`, `sizeof(GLuint)`) are not modelled. Windows and lengths are counted in elements, which is the byte arithmetic divided by the element size.
- TerrainGeometry.CellTriangles: records that the two triangles of a sub-cell have opposite orientations in grid coordinates. Whether that matters depends on face culling, which is set up outside this file, so the model states the fact without judging it.
