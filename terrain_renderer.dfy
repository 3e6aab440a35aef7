/**
 The terrain renderer: a fixed grid of chunks whose meshes live in one vertex
 buffer and one index buffer, each chunk owning a fixed-size slot of both.
 The two GPU buffers are modelled as arrays; a partial buffer upload becomes a
 slice write into the array.
 */
module Renderer {
  import opened TerrainGeometry

  /**
   A partial upload into a buffer: the |data| elements starting at `start`
   are overwritten with `data`, every other element keeps its value.
   */
  method SubData<T>(buffer: array<T>, start: nat, data: seq<T>)
    requires start + |data| <= buffer.Length
    modifies buffer
    ensures WindowWritten(buffer[..], old(buffer[..]), start, data)
  {
    forall k | 0 <= k < |data| {
      buffer[start + k] := data[k];
    }
  }

  /**
   `after` is `before` with the |block| elements starting at `start` replaced
   by `block`.
   */
  ghost predicate WindowWritten<T>(after: seq<T>, before: seq<T>, start: nat, block: seq<T>)
  {
    && |after| == |before|
    && start + |block| <= |after|
    && forall k :: 0 <= k < |after| ==>
         after[k] == if start <= k < start + |block| then block[k - start] else before[k]
  }

  /**
   Reading back a chunk's vertex slot after its vertex block was written:
   grid position (i, j) of the chunk is at window offset i*(detail+1)+j and
   carries height sample number i*(detail+1)+j.
   */
  lemma ReadBackVertex(after: seq<Vertex>, before: seq<Vertex>, start: nat, detail: int,
                       coordX: int, coordY: int, heights: seq<real>, i: int, j: int)
    requires detail >= 1 && |heights| >= VerticesPerChunk(detail)
    requires WindowWritten(after, before, start, VertexPrefix(detail, coordX, coordY, heights, VerticesPerChunk(detail)))
    requires 0 <= i <= detail && 0 <= j <= detail
    ensures var c := i * (detail + 1) + j;
      && 0 <= c < VerticesPerChunk(detail)
      && after[start + c] == GridVertex(detail, coordX, coordY, i, j, heights[c])
      && after[start + c].height == heights[c]
  {
    var c := i * (detail + 1) + j;
    ChunkVertexAt(detail, coordX, coordY, heights, i, j);
    VertexPrefixAt(detail, coordX, coordY, heights, VerticesPerChunk(detail), c);
  }

  /**
   Reading back a chunk's index slot after its index block was written: the
   six entries of sub-cell (i, j) are TL, TR, BL, BR, TR, BL of that cell,
   numbered within the chunk's vertex slot.
   */
  lemma ReadBackCell(after: seq<nat>, before: seq<nat>, start: nat, detail: nat, vertexOffset: nat,
                     i: nat, j: nat, k: nat)
    requires WindowWritten(after, before, start, ElementRows(detail, vertexOffset, detail))
    requires i < detail && j < detail && k < 6
    ensures var p := 6 * (i * detail + j) + k;
      && p < ElementsPerChunk(detail)
      && after[start + p] == CellIndices(detail, vertexOffset, i, j)[k]
  {
    ChunkElementsCell(detail, vertexOffset, i, j, k);
  }

  /**
   Writing the window of chunk (cx, cy) leaves every element of the window of
   any other chunk (cx', cy') of the grid as it was.
   */
  lemma OtherChunkUntouched<T>(after: seq<T>, before: seq<T>, radius: int, block: seq<T>,
                               cx: int, cy: int, cx': int, cy': int, k: int)
    requires radius >= 1
    requires InGrid(radius, cx) && InGrid(radius, cy) && InGrid(radius, cx') && InGrid(radius, cy')
    requires (cx, cy) != (cx', cy')
    requires WindowWritten(after, before, SlotStart(|block|, SlotOffset(radius, cx, cy)), block)
    requires 0 <= k < |after| && InSlot(k, |block|, SlotOffset(radius, cx', cy'))
    ensures after[k] == before[k]
  {
    if InSlot(k, |block|, SlotOffset(radius, cx, cy)) {
      DistinctChunksDisjoint(radius, |block|, cx, cy, cx', cy', k);
      assert false;
    }
  }

  /**
   The vertex block of one chunk: a (detail+1) x (detail+1) grid, row-major,
   taking its heights from the first VerticesPerChunk samples of `heights`.
   */
  method BuildVertices(detail: int, coordX: int, coordY: int, heights: seq<real>) returns (vertices: seq<Vertex>)
    requires detail >= 1 && |heights| >= VerticesPerChunk(detail)
    ensures vertices == VertexPrefix(detail, coordX, coordY, heights, VerticesPerChunk(detail))
    ensures forall c :: 0 <= c < |vertices| ==> vertices[c] == ChunkVertex(detail, coordX, coordY, heights, c)
  {
    vertices := [];
    var i, c := 0, 0;
    while i <= detail
      invariant 0 <= i <= detail + 1
      invariant c == i * (detail + 1) <= VerticesPerChunk(detail)
      invariant vertices == VertexPrefix(detail, coordX, coordY, heights, c)
    {
      var j := 0;
      while j <= detail
        invariant 0 <= j <= detail + 1
        invariant c == i * (detail + 1) + j <= VerticesPerChunk(detail)
        invariant vertices == VertexPrefix(detail, coordX, coordY, heights, c)
      {
        assert c < VerticesPerChunk(detail) by { ChunkVertexAt(detail, coordX, coordY, heights, i, j); }
        var x := coordX as real + 1.0 * i as real / detail as real - 0.5;
        var y := coordY as real + 1.0 * j as real / detail as real - 0.5;
        var height := heights[c];
        var v := Vertex(x, y, height, x - coordX as real, y - coordY as real);
        assert v == ChunkVertex(detail, coordX, coordY, heights, c) by {
          ChunkVertexAt(detail, coordX, coordY, heights, i, j);
        }
        vertices := vertices + [v];
        j, c := j + 1, c + 1;
      }
      assert c == (i + 1) * (detail + 1);
      i := i + 1;
    }
    forall k | 0 <= k < |vertices| {
      VertexPrefixAt(detail, coordX, coordY, heights, c, k);
    }
  }

  /**
   The index block of one chunk: two triangles per sub-cell, sub-cells
   row-major, every index shifted by vertexOffset (the first vertex of the
   chunk's vertex slot).
   */
  method BuildElements(detail: nat, vertexOffset: nat) returns (elements: seq<nat>)
    ensures |elements| == ElementsPerChunk(detail)
    ensures elements == ElementRows(detail, vertexOffset, detail)
  {
    elements := [];
    var i: nat := 0;
    while i < detail
      invariant 0 <= i <= detail
      invariant elements == ElementRows(detail, vertexOffset, i)
    {
      var j: nat := 0;
      while j < detail
        invariant 0 <= j <= detail
        invariant elements == ElementRows(detail, vertexOffset, i) + ElementRow(detail, vertexOffset, i, j)
      {
        elements := elements + CellIndices(detail, vertexOffset, i, j);
        j := j + 1;
      }
      i := i + 1;
    }
  }

  class TerrainRenderer {
    var radius: int
    var detail: int
    var chunks: nat
    var elementsPerChunk: nat
    var verticesPerChunk: nat
    /** The vertex buffer: `chunks` slots of verticesPerChunk vertices. */
    var vertexBuffer: array<Vertex>
    /** The index buffer: `chunks` slots of elementsPerChunk indices. */
    var elementBuffer: array<nat>

    /** Configured: the derived sizes match the configuration and the buffers are sized by them. */
    ghost predicate Valid()
      reads this
    {
      && Configured(radius, detail)
      && chunks == ChunkCount(radius)
      && elementsPerChunk == ElementsPerChunk(detail)
      && verticesPerChunk == VerticesPerChunk(detail)
      && vertexBuffer.Length == verticesPerChunk * chunks
      && elementBuffer.Length == elementsPerChunk * chunks
    }

    /** A renderer that records its configuration and owns two empty buffers; Reset must run before Draw or UpdateChunk. */
    constructor (radius: int, detail: int)
      ensures this.radius == radius && this.detail == detail
      ensures fresh(vertexBuffer) && fresh(elementBuffer)
      ensures vertexBuffer.Length == 0 && elementBuffer.Length == 0
    {
      this.radius := radius;
      this.detail := detail;
      chunks, elementsPerChunk, verticesPerChunk := 0, 0, 0;
      vertexBuffer := new Vertex[0];
      elementBuffer := new nat[0];
    }

    /**
     Reconfigures the grid: recomputes the derived sizes and replaces both
     buffers by fresh ones of exactly verticesPerChunk * chunks vertices and
     elementsPerChunk * chunks indices. No earlier chunk survives.
     */
    method Reset(radius: int, detail: int)
      requires Configured(radius, detail)
      modifies this
      ensures Valid()
      ensures this.radius == radius && this.detail == detail
      ensures chunks == (2 * radius - 1) * (2 * radius - 1)
      ensures elementsPerChunk == 6 * detail * detail
      ensures verticesPerChunk == (detail + 1) * (detail + 1)
      ensures fresh(vertexBuffer) && fresh(elementBuffer)
    {
      this.radius := radius;
      this.detail := detail;

      chunks := Sq(2 * radius - 1);
      elementsPerChunk := 2 * 3 * Sq(detail);
      verticesPerChunk := Sq(detail + 1);

      SizesBounded(radius, detail);
      vertexBuffer := new Vertex[verticesPerChunk * chunks];
      elementBuffer := new nat[elementsPerChunk * chunks];
    }

    /**
     The number of indices one draw call submits: the whole index buffer, a
     whole number of triangles, within the range of the `int` count.
     */
    method Draw() returns (count: int)
      requires Valid()
      ensures count == elementBuffer.Length
      ensures count % 3 == 0 && 6 <= count <= IntMax
    {
      SizesBounded(radius, detail);
      count := elementsPerChunk * chunks;
      assert count == 3 * (2 * Sq(detail) * chunks);
    }

    /**
     Tessellates the chunk at grid coordinate (chunkX, chunkY), whose local
     frame has its origin at world coordinate (coordX, coordY), and writes its
     vertex block and index block into that chunk's slot of the two buffers.
     Every other buffer element keeps its value, and every index written
     names a vertex of the same slot.
     */
    method UpdateChunk(chunkX: int, chunkY: int, coordX: int, coordY: int, heights: seq<real>)
      requires Valid()
      requires InGrid(radius, chunkX) && InGrid(radius, chunkY)
      requires |heights| >= verticesPerChunk
      modifies vertexBuffer, elementBuffer
      ensures Valid()
      ensures var slot := SlotOffset(radius, chunkX, chunkY);
        && SlotStart(verticesPerChunk, slot) + verticesPerChunk <= vertexBuffer.Length
        && SlotStart(elementsPerChunk, slot) + elementsPerChunk <= elementBuffer.Length
      ensures var slot := SlotOffset(radius, chunkX, chunkY);
        WindowWritten(vertexBuffer[..], old(vertexBuffer[..]), SlotStart(verticesPerChunk, slot),
                      VertexPrefix(detail, coordX, coordY, heights, verticesPerChunk))
      ensures var slot := SlotOffset(radius, chunkX, chunkY);
        WindowWritten(elementBuffer[..], old(elementBuffer[..]), SlotStart(elementsPerChunk, slot),
                      ElementRows(detail, SlotStart(verticesPerChunk, slot), detail))
      ensures var slot := SlotOffset(radius, chunkX, chunkY);
        forall k :: 0 <= k < elementBuffer.Length && InSlot(k, elementsPerChunk, slot) ==>
          InSlot(elementBuffer[k], verticesPerChunk, slot) && elementBuffer[k] < vertexBuffer.Length
    {
      var vertices := BuildVertices(detail, coordX, coordY, heights);

      var offset := SlotOffset(radius, chunkX, chunkY);

      var vertexOffset := SlotStart(verticesPerChunk, offset);
      var elements := BuildElements(detail, vertexOffset);

      SlotInBuffer(verticesPerChunk, offset, chunks);
      SlotInBuffer(elementsPerChunk, offset, chunks);
      SubData(vertexBuffer, vertexOffset, vertices);
      SubData(elementBuffer, SlotStart(elementsPerChunk, offset), elements);

      forall p | 0 <= p < elementsPerChunk {
        ChunkElementsInSlot(detail, vertexOffset, p);
      }
    }
  }
}
