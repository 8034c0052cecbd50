/**
 * The chunk actor: its block array, filled in place by the terrain
 * generator, and the three mesh buffers plus vertex count that the mesher
 * grows face by face.
 */
module Voxel {
  import opened Enums
  import opened Grid
  import opened Terrain
  import opened Geometry
  import opened Culling

  class Chunk {
    /** Edge length of the chunk, in blocks. */
    const size: int
    /** World units per block edge, applied to the corner table. */
    const scale: int
    /** The 8 unit-cube corners. */
    const blockVertexData: seq<Vec>
    /** 4 corner numbers per direction, in direction-ordinal order. */
    const blockTriangleData: seq<int>
    /** size^3 blocks, position (x, y, z) at GetBlockIndex(size, x, y, z). */
    var blocks: seq<Block>

    var vertexData: seq<Vec>
    var triangleData: seq<int>
    var uvData: seq<UV>
    var vertexCount: int

    /** The shape fixed at construction: a positive edge, size^3 blocks, well-formed tables. */
    predicate Valid()
      reads this`blocks
    {
      GridShape(blocks, size) && TablesValid(blockVertexData, blockTriangleData)
    }

    /** The four mesh buffers as one value. */
    ghost function MeshState(): Buffers
      reads this`vertexData, this`uvData, this`triangleData, this`vertexCount
    {
      Buffers(vertexData, uvData, triangleData, vertexCount)
    }

    /** The mesh buffers describe whole quads (see WellFormed). */
    ghost predicate MeshValid()
      reads this`vertexData, this`uvData, this`triangleData, this`vertexCount
    {
      WellFormed(MeshState())
    }

    /**
     * Sizes the block array to size^3 (every block Null, the enumeration's
     * zero) and starts with empty mesh buffers.
     */
    constructor (size: int, scale: int, corners: seq<Vec>, indices: seq<int>)
      requires size > 0 && TablesValid(corners, indices)
      ensures Valid() && MeshValid()
      ensures this.size == size && this.scale == scale
      ensures blockVertexData == corners && blockTriangleData == indices
      ensures forall i :: 0 <= i < |blocks| ==> blocks[i] == Null
      ensures vertexData == [] && triangleData == [] && uvData == [] && vertexCount == 0
    {
      this.size := size;
      this.scale := scale;
      blockVertexData := corners;
      blockTriangleData := indices;
      blocks := seq(size * size * size, _ => Null);
      vertexData := [];
      triangleData := [];
      uvData := [];
      vertexCount := 0;
    }

    /**
     * GenerateBlocks: for every column, the clamped height of its raw noise
     * height splits it into Stone below and Air from there up. Every cell of
     * the block array is written.
     */
    method GenerateBlocks(heights: (int, int) -> int)
      requires Valid()
      modifies this`blocks
      ensures Valid()
      ensures blocks == TerrainGrid(size, heights)
    {
      var x := 0;
      while x < size
        invariant 0 <= x <= size && Valid()
        invariant FilledBefore(blocks, size, heights, x, 0, 0)
      {
        var y := 0;
        while y < size
          invariant 0 <= y <= size && Valid()
          invariant FilledBefore(blocks, size, heights, x, y, 0)
        {
          var height := ClampHeight(heights(x, y), size);
          var z := 0;
          while z < height
            invariant 0 <= z <= height && Valid()
            invariant FilledBefore(blocks, size, heights, x, y, z)
          {
            FillStep(blocks, size, heights, x, y, z);
            blocks := blocks[GetBlockIndex(size, x, y, z) := Stone];
            z := z + 1;
          }
          z := height;
          while z < size
            invariant height <= z <= size && Valid()
            invariant FilledBefore(blocks, size, heights, x, y, z)
          {
            FillStep(blocks, size, heights, x, y, z);
            blocks := blocks[GetBlockIndex(size, x, y, z) := Air];
            z := z + 1;
          }
          y := y + 1;
        }
        x := x + 1;
      }
      FilledAll(blocks, size, heights);
    }

    /**
     * GetFaceVertices: the four vertices of the face towards d of the block
     * at `position`, built one corner at a time.
     */
    method GetFaceVertices(d: Direction, position: Vec) returns (vertices: seq<Vec>)
      requires Valid()
      ensures vertices == FaceVertices(blockVertexData, blockTriangleData, scale, d, position)
    {
      vertices := [];
      for i := 0 to 4
        invariant vertices == FaceVertices(blockVertexData, blockTriangleData, scale, d, position)[..i]
      {
        vertices := vertices + [Add(Mul(blockVertexData[blockTriangleData[i + Ordinal(d) * 4]], scale), position)];
      }
    }

    /**
     * CreateFace: appends the face's four vertices, the four fixed UVs and
     * the quad's six indices based at the current vertex count, then counts
     * the four new vertices.
     */
    method CreateFace(d: Direction, position: Vec)
      requires Valid()
      modifies this`vertexData, this`uvData, this`triangleData, this`vertexCount
      ensures old(MeshValid()) ==> MeshValid()
      ensures vertexData == old(vertexData) + FaceVertices(blockVertexData, blockTriangleData, scale, d, position)
      ensures uvData == old(uvData) + QuadUVs
      ensures triangleData == old(triangleData) + QuadIndices(old(vertexCount))
      ensures vertexCount == old(vertexCount) + 4
    {
      var vertices := GetFaceVertices(d, position);
      vertexData := vertexData + vertices;
      uvData := uvData + [UV(0, 0), UV(1, 0), UV(1, 1), UV(0, 1)];
      triangleData := triangleData + [vertexCount + 3, vertexCount + 2, vertexCount, vertexCount + 2, vertexCount + 1, vertexCount];
      vertexCount := vertexCount + 4;
    }

    /**
     * Since the buffers were s0, they have gained the geometry of every face
     * the mesher emits before its loops reach loop point p.
     */
    ghost predicate EmittedUpTo(s0: Buffers, p: Vec)
      reads this`blocks, this`vertexData, this`uvData, this`triangleData, this`vertexCount
      requires Valid() && LoopPoint(size, p)
    {
      Appended(blockVertexData, blockTriangleData, scale, s0, FacesBefore(blocks, size, p), MeshState())
    }

    /**
     * Since the buffers were s0, they have gained the geometry of every face
     * emitted before block p, then of the faces of p found over the first i
     * directions of the loop.
     */
    ghost predicate EmittedTowards(s0: Buffers, p: Vec, i: int)
      reads this`blocks, this`vertexData, this`uvData, this`triangleData, this`vertexCount
      requires Valid() && InBounds(size, p) && 0 <= i <= |LoopOrder|
    {
      Appended(blockVertexData, blockTriangleData, scale, s0,
               FacesBefore(blocks, size, p) + FacesTowards(blocks, size, p, i), MeshState())
    }

    /**
     * The body of GenerateMesh's block loop for block `position`: if it is not
     * Air, each of the six directions is tried in loop order and a face is
     * created whenever the neighbour that way is transparent. The buffers then
     * hold the faces emitted up to the next block of the column.
     */
    method MeshBlock(position: Vec, ghost s0: Buffers)
      requires Valid() && InBounds(size, position) && EmittedUpTo(s0, position)
      modifies this`vertexData, this`uvData, this`triangleData, this`vertexCount
      ensures EmittedUpTo(s0, Vec(position.x, position.y, position.z + 1))
    {
      if blocks[GetBlockIndex(size, position.x, position.y, position.z)] != Air {
        BlockStart(s0, position);
        for i := 0 to |LoopOrder|
          invariant EmittedTowards(s0, position, i)
        {
          MeshDirection(position, i, s0);
        }
        BlockEnd(s0, position);
      } else {
        AirBlock(s0, position);
      }
    }

    /**
     * One turn of the direction loop of MeshBlock: if the neighbour of
     * `position` towards LoopOrder[i] is transparent, the face of `position`
     * towards it is created; otherwise nothing happens.
     */
    method MeshDirection(position: Vec, i: int, ghost s0: Buffers)
      requires Valid() && InBounds(size, position) && 0 <= i < |LoopOrder|
      requires EmittedTowards(s0, position, i)
      modifies this`vertexData, this`uvData, this`triangleData, this`vertexCount
      ensures EmittedTowards(s0, position, i + 1)
    {
      var direction := LoopOrder[i];
      if Check(blocks, size, GetPositionInDirection(direction, position)) {
        ghost var before := MeshState();
        CreateFace(direction, Mul(position, I100));
        FaceCreated(s0, position, i, before);
      } else {
        NoFace(s0, position, i);
      }
    }

    /**
     * The innermost (z) loop of GenerateMesh over column (x, y): meshes the
     * column's blocks bottom to top, taking the buffers from the faces
     * emitted before the column to those emitted before the next one.
     */
    method MeshColumn(x: int, y: int, ghost s0: Buffers)
      requires Valid() && 0 <= x < size && 0 <= y < size && EmittedUpTo(s0, Vec(x, y, 0))
      modifies this`vertexData, this`uvData, this`triangleData, this`vertexCount
      ensures EmittedUpTo(s0, Vec(x, y + 1, 0))
    {
      for z := 0 to size
        invariant EmittedUpTo(s0, Vec(x, y, z))
      {
        MeshBlock(Vec(x, y, z), s0);
      }
      ColumnDone(s0, x, y);
    }

    /**
     * The middle (y) loop of GenerateMesh over slice x: meshes the slice's
     * columns in y order, taking the buffers from the faces emitted before
     * slice x to those emitted before slice x + 1.
     */
    method MeshSlice(x: int, ghost s0: Buffers)
      requires Valid() && 0 <= x < size && EmittedUpTo(s0, Vec(x, 0, 0))
      modifies this`vertexData, this`uvData, this`triangleData, this`vertexCount
      ensures EmittedUpTo(s0, Vec(x + 1, 0, 0))
    {
      for y := 0 to size
        invariant EmittedUpTo(s0, Vec(x, y, 0))
      {
        MeshColumn(x, y, s0);
      }
      SliceDone(s0, x);
    }

    /**
     * GenerateMesh: visits every block in x, y, z order and meshes it, so
     * the buffers gain exactly the geometry of VisibleFaces of the
     * (unchanged) block array, and well-formed buffers stay well-formed.
     */
    method GenerateMesh()
      requires Valid()
      modifies this`vertexData, this`uvData, this`triangleData, this`vertexCount
      ensures old(MeshValid()) ==> MeshValid()
      ensures blocks == old(blocks)
      ensures vertexData == old(vertexData) + MeshVertices(blockVertexData, blockTriangleData, scale, VisibleFaces(blocks, size))
      ensures uvData == old(uvData) + MeshUVs(VisibleFaces(blocks, size))
      ensures triangleData == old(triangleData) + MeshTriangles(VisibleFaces(blocks, size), old(vertexCount))
      ensures vertexCount == old(vertexCount) + 4 * |VisibleFaces(blocks, size)|
    {
      ghost var s0 := MeshState();
      NothingEmitted();
      for x := 0 to size
        invariant EmittedUpTo(s0, Vec(x, 0, 0))
      {
        MeshSlice(x, s0);
      }
      if WellFormed(s0) {
        AppendedWellFormed(blockVertexData, blockTriangleData, scale, s0, VisibleFaces(blocks, size), MeshState());
      }
    }

    /** Before the first block the buffers have gained nothing. */
    lemma NothingEmitted()
      requires Valid()
      ensures EmittedUpTo(MeshState(), Vec(0, 0, 0))
    {
      assert FacesBefore(blocks, size, Vec(0, 0, 0)) == [];
      AppendedNothing(blockVertexData, blockTriangleData, scale, MeshState());
    }

    /** At a block that is not Air, no direction has been tried yet. */
    lemma BlockStart(s0: Buffers, p: Vec)
      requires Valid() && InBounds(size, p) && EmittedUpTo(s0, p)
      ensures EmittedTowards(s0, p, 0)
    {
      assert FacesBefore(blocks, size, p) + FacesTowards(blocks, size, p, 0) == FacesBefore(blocks, size, p);
    }

    /**
     * Direction i of block p has a transparent neighbour and CreateFace has
     * grown the buffers `before` by that face: the face is now emitted.
     */
    lemma FaceCreated(s0: Buffers, p: Vec, i: int, before: Buffers)
      requires Valid() && InBounds(size, p) && 0 <= i < |LoopOrder|
      requires Check(blocks, size, GetPositionInDirection(LoopOrder[i], p))
      requires Appended(blockVertexData, blockTriangleData, scale, s0,
                        FacesBefore(blocks, size, p) + FacesTowards(blocks, size, p, i), before)
      requires vertexData == before.vertices + FaceVertices(blockVertexData, blockTriangleData, scale, LoopOrder[i], Mul(p, I100))
      requires uvData == before.uvs + QuadUVs
      requires triangleData == before.triangles + QuadIndices(before.count)
      requires vertexCount == before.count + 4
      ensures EmittedTowards(s0, p, i + 1)
    {
      var done := FacesBefore(blocks, size, p);
      AppendedSnoc(blockVertexData, blockTriangleData, scale, s0, done + FacesTowards(blocks, size, p, i),
                   Face(p, LoopOrder[i]), before, MeshState());
      TowardsNext(blocks, size, p, i, done);
    }

    /** Direction i of block p has an opaque neighbour: nothing is added. */
    lemma NoFace(s0: Buffers, p: Vec, i: int)
      requires Valid() && InBounds(size, p) && 0 <= i < |LoopOrder|
      requires !Check(blocks, size, GetPositionInDirection(LoopOrder[i], p))
      requires EmittedTowards(s0, p, i)
      ensures EmittedTowards(s0, p, i + 1)
    {
      TowardsNext(blocks, size, p, i, FacesBefore(blocks, size, p));
    }

    /** After all six directions of a block that is not Air, its faces are all emitted. */
    lemma BlockEnd(s0: Buffers, p: Vec)
      requires Valid() && InBounds(size, p) && BlockAt(blocks, size, p) != Air
      requires EmittedTowards(s0, p, |LoopOrder|)
      ensures EmittedUpTo(s0, Vec(p.x, p.y, p.z + 1))
    {
      BlockStep(blocks, size, p);
    }

    /** An Air block emits nothing. */
    lemma AirBlock(s0: Buffers, p: Vec)
      requires Valid() && InBounds(size, p) && BlockAt(blocks, size, p) == Air
      requires EmittedUpTo(s0, p)
      ensures EmittedUpTo(s0, Vec(p.x, p.y, p.z + 1))
    {
      BlockStep(blocks, size, p);
      assert FacesBefore(blocks, size, p) + FacesAt(blocks, size, p) == FacesBefore(blocks, size, p);
    }

    /** The end of column (x, y) is the start of column (x, y + 1). */
    lemma ColumnDone(s0: Buffers, x: int, y: int)
      requires Valid() && 0 <= x < size && 0 <= y < size
      requires EmittedUpTo(s0, Vec(x, y, size))
      ensures EmittedUpTo(s0, Vec(x, y + 1, 0))
    {
      ColumnEnd(blocks, size, x, y);
    }

    /** The end of slice x is the start of slice x + 1. */
    lemma SliceDone(s0: Buffers, x: int)
      requires Valid() && 0 <= x < size
      requires EmittedUpTo(s0, Vec(x, size, 0))
      ensures EmittedUpTo(s0, Vec(x + 1, 0, 0))
    {
      SliceEnd(blocks, size, x);
    }

    /**
     * BeginPlay without the final upload: the terrain fill followed by the
     * mesher, so the buffers gain exactly the geometry of the visible faces
     * of the generated terrain.
     */
    method BeginPlay(heights: (int, int) -> int)
      requires Valid()
      modifies this
      ensures old(MeshValid()) ==> MeshValid()
      ensures blocks == TerrainGrid(size, heights)
      ensures vertexData == old(vertexData) + MeshVertices(blockVertexData, blockTriangleData, scale, VisibleFaces(TerrainGrid(size, heights), size))
      ensures uvData == old(uvData) + MeshUVs(VisibleFaces(TerrainGrid(size, heights), size))
      ensures triangleData == old(triangleData) + MeshTriangles(VisibleFaces(TerrainGrid(size, heights), size), old(vertexCount))
      ensures vertexCount == old(vertexCount) + 4 * |VisibleFaces(TerrainGrid(size, heights), size)|
    {
      GenerateBlocks(heights);
      GenerateMesh();
    }
  }

  /**
   * Every cell of `a` that the terrain fill visits before (x, y, z), in its
   * x-outer, y-middle, z-inner loop order, holds its terrain block.
   */
  ghost predicate FilledBefore(a: seq<Block>, n: int, heights: (int, int) -> int, x: int, y: int, z: int)
    requires GridShape(a, n)
  {
    forall x', y', z' ::
      InBounds(n, Vec(x', y', z')) && VisitedBefore(Vec(x', y', z'), Vec(x, y, z)) ==>
        a[GetBlockIndex(n, x', y', z')] == TerrainBlock(n, heights, x', y', z')
  }

  /** Writing the terrain block of (x, y, z) extends the filled region by that one cell. */
  lemma FillStep(a: seq<Block>, n: int, heights: (int, int) -> int, x: int, y: int, z: int)
    requires GridShape(a, n) && InBounds(n, Vec(x, y, z))
    requires FilledBefore(a, n, heights, x, y, z)
    ensures FilledBefore(a[GetBlockIndex(n, x, y, z) := TerrainBlock(n, heights, x, y, z)], n, heights, x, y, z + 1)
  {
    var b := a[GetBlockIndex(n, x, y, z) := TerrainBlock(n, heights, x, y, z)];
    forall x', y', z' | InBounds(n, Vec(x', y', z')) && VisitedBefore(Vec(x', y', z'), Vec(x, y, z + 1))
      ensures b[GetBlockIndex(n, x', y', z')] == TerrainBlock(n, heights, x', y', z')
    {
      GetBlockIndexInjective(n, Vec(x', y', z'), Vec(x, y, z));
    }
  }

  /** Once every cell up to (n, 0, 0) is filled, the array is the terrain grid. */
  lemma FilledAll(a: seq<Block>, n: int, heights: (int, int) -> int)
    requires GridShape(a, n) && FilledBefore(a, n, heights, n, 0, 0)
    ensures a == TerrainGrid(n, heights)
  {
    var t := TerrainGrid(n, heights);
    forall i | 0 <= i < |a|
      ensures a[i] == t[i]
    {
      DecodeIndexRoundTrip(n, i);
    }
  }
}
