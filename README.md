# Voxel chunk: terrain fill and naive-culling mesher

This project models the chunk actor of VoxelDemo (`AChunk`) in Dafny. A chunk
is a cube of `Size`³ blocks stored in one flat array. Position (x, y, z) is
stored at index `z*Size*Size + y*Size + x`.

- `GenerateBlocks` fills every column (x, y). The column's noise height is
  clamped to [0, Size]. The column is Stone below that height and Air from it
  up.
- `GenerateMesh` visits every block in x, y, z order. For each block that is
  not Air, it tries the six directions in a fixed loop order. It emits a face
  towards every neighbour that `Check` reports transparent: outside the chunk,
  or Air.
- `CreateFace` appends to three growing buffers:
  - four vertices, read from the corner table through the face table at slot
    `i + 4*ordinal(direction)`;
  - four fixed UVs;
  - two triangles, indexed from the running vertex count.

  It then adds 4 to the vertex count.

Modules:

- `Enums`: the block and direction enumerations.
- `Grid`: positions, the index flattening, neighbours and `Check`.
- `Terrain`: the column clamp and the grid the fill produces.
- `Geometry`: the face geometry, and the buffers a face sequence produces.
- `Culling`: the sequence of faces the mesher emits, and exactly which faces
  those are.
- `Voxel`: class `Chunk`. Its block array and its mesh buffers are fields,
  and its methods update them as the actor does.

How the methods are specified:

- Each method is proved against the specification functions.
  - `GenerateBlocks` leaves `blocks == TerrainGrid(size, heights)`.
  - `GenerateMesh` appends exactly `MeshVertices`, `MeshUVs` and
    `MeshTriangles` of `VisibleFaces(blocks, size)` to the buffers.
- Lemmas then state what those functions mean. For example, a face is in
  `VisibleFaces` exactly when its block lies in the chunk, is not Air, and its
  neighbour that way is transparent.

Notes on the model:

- `GenerateMesh`'s four nested loops (x, y, z, direction) appear as
  methods: `GenerateMesh` (x), `MeshSlice` (y), `MeshColumn` (z),
  `MeshBlock` (the Air test and the direction loop) and `MeshDirection` (one
  turn of the direction loop). Each states, as a ghost predicate over the
  buffers, which faces have been emitted since the mesher started.
- `Blocks` is a `TArray` that the constructor sizes with `SetNum`. It is a
  `seq<Block>` field that the fill reassigns cell by cell.
- Directions: `Enums.h` declares the last two directions as `Top` and
  `Bottom`, while `Chunk.cpp` calls them `Up` and `Down`. The model calls
  them `Up` and `Down` and keeps the declaration order (ordinals 4 and 5),
  which is the order the face table is indexed by.
- Loop order: the mesher's direction loop runs Back, Down, Front, Left,
  Right, Up (`LoopOrder`). The comment beside that loop says it should match
  the enumeration's order, but it does not.
  - The table lookup uses each direction's own ordinal, so every face still
    gets its own corners.
  - The loop order only decides the order of the faces within one block, and
    the model keeps it.
- Tables and constants:
  - The corner table `BlockVertexData` (8 corners) and the face table
    `BlockTriangleData` (24 corner numbers, each below 8) are not declared in
    the header. They are constructor parameters.
  - `I100` is not declared in `Chunk.h` or `Chunk.cpp`: those only use the
    name, to scale a block position before `CreateFace` and in the noise
    sampling coordinates. Like the two tables, its value is the model's own
    choice. The model fixes it at the positive constant 100, after the name
    and the remark that the engine's unit is 100 cm. No lemma depends on
    that value.

## Model

The rows follow the modules. The last fourteen rows are the loop-step lemmas
of `GenerateBlocks` and `GenerateMesh`: each carries one loop invariant of
those methods across one iteration, or from the end of an inner loop to the
next turn of the outer one.

| member | source | states |
|---|---|---|
| Enums.Ordinal | Source/VoxelDemo/Private/Enums.h:5-8 | the value a direction casts to lies in [0, 6) |
| Enums.DirectionFromOrdinal | Source/VoxelDemo/Private/Enums.h:5-8 | a raw value names a direction exactly when it lies in [0, 6), and then that direction casts back to it |
| Enums.OrdinalRoundTrip | Source/VoxelDemo/Private/Enums.h:5-8 | casting a direction to its ordinal and back yields the same direction |
| Grid.IndexDecodes | Source/VoxelDemo/Private/Chunk.cpp:167-170 | on [0, n)³ the flattening formula lies in [0, n³) and decodes back to (x, y, z) |
| Grid.GetBlockIndex | Source/VoxelDemo/Private/Chunk.cpp:167-170 | an in-chunk position flattens to an index within the n³ cells the array is sized to |
| Grid.GetBlockIndexDecodes | Source/VoxelDemo/Private/Chunk.cpp:167-170 | the index of an in-chunk position decodes to that position |
| Grid.GetBlockIndexDecodesAll | Source/VoxelDemo/Private/Chunk.cpp:167-170 | every in-chunk position decodes from its own index |
| Grid.GetBlockIndexInjective | Source/VoxelDemo/Private/Chunk.cpp:167-170 | two in-chunk positions share an index if and only if they are equal |
| Grid.DecodeIndexRoundTrip | Source/VoxelDemo/Private/Chunk.cpp:167-170 | every index of the n³-cell array is the index of an in-chunk position, so the flattening is onto |
| Grid.GetPositionInDirection | Source/VoxelDemo/Private/Chunk.cpp:150-162 | the neighbour one step towards the direction; it has no ensures of its own: GetPositionInDirectionMoves, StepBack and NeighboursDistinct state its meaning |
| Grid.GetPositionInDirectionMoves | Source/VoxelDemo/Private/Chunk.cpp:150-162 | the neighbour differs from the position by the direction's sign on the direction's axis and agrees on the other two axes |
| Grid.StepBack | Source/VoxelDemo/Private/Chunk.cpp:154-159 | a step towards a direction followed by a step towards its opposite returns to the start |
| Grid.NeighboursDistinct | Source/VoxelDemo/Private/Chunk.cpp:154-159 | two directions give the same neighbour if and only if they are the same direction |
| Grid.NeighbourOfOrdinal | Source/VoxelDemo/Private/Chunk.cpp:152-161 | a raw direction value outside [0, 6) is the invalid-direction error; every other value yields the neighbour of that direction |
| Grid.Check | Source/VoxelDemo/Private/Chunk.cpp:109-115 | a position with any coordinate outside [0, n) is transparent, and an in-chunk position is transparent if and only if its block is Air |
| Terrain.ClampHeight | Source/VoxelDemo/Private/Chunk.cpp:57 | the clamped height lies in [0, n]: it is the raw height when that already lies there, 0 below, n above |
| Terrain.TerrainGrid | Source/VoxelDemo/Private/Chunk.cpp:47-70 | the filled array has n³ cells, and the cell of (x, y, z) is Stone if and only if z is below the column's clamped height, Air otherwise |
| Terrain.ColumnIsSolidBelowSurface | Source/VoxelDemo/Private/Chunk.cpp:61-69 | a terrain column has no overhangs: everything below a Stone cell is Stone, everything above an Air cell is Air |
| Terrain.LowTerrainIsAllAir | Source/VoxelDemo/Private/Chunk.cpp:57-69 | raw heights at most 0 clamp to 0 and fill the whole chunk with Air |
| Terrain.HighTerrainIsAllStone | Source/VoxelDemo/Private/Chunk.cpp:57-69 | raw heights of at least n clamp to n and fill the whole chunk with Stone |
| Terrain.TerrainGridWritesEveryCell | Source/VoxelDemo/Private/Chunk.cpp:61-69 | every cell is written: none keeps the Null it was sized with |
| Geometry.FaceSlot | Source/VoxelDemo/Private/Chunk.cpp:133 | the four slots read for a direction form the block [4·ordinal, 4·ordinal + 4) inside the 24-entry face table |
| Geometry.FaceSlotInjective | Source/VoxelDemo/Private/Chunk.cpp:133 | each face-table slot is read for exactly one (direction, corner) pair |
| Geometry.FaceVertices | Source/VoxelDemo/Private/Chunk.cpp:127-136 | a face has four vertices |
| Geometry.FaceVerticesTranslate | Source/VoxelDemo/Private/Chunk.cpp:133 | moving the block by an offset moves each of its face's vertices by that offset |
| Geometry.QuadIndices | Source/VoxelDemo/Private/Chunk.cpp:121-123 | a quad's six indices all lie among its own four vertices, and each of those four is used |
| Geometry.MeshVertices | Source/VoxelDemo/Private/Chunk.cpp:119 | a face sequence produces four vertices per face |
| Geometry.MeshUVs | Source/VoxelDemo/Private/Chunk.cpp:120 | a face sequence produces four UVs per face |
| Geometry.MeshUVsValues | Source/VoxelDemo/Private/Chunk.cpp:120 | UV k of a face sequence is the k mod 4-th of the fixed quad UVs, whatever the faces' directions |
| Geometry.MeshTriangles | Source/VoxelDemo/Private/Chunk.cpp:121-124 | a face sequence produces six indices per face |
| Geometry.MeshTrianglesRange | Source/VoxelDemo/Private/Chunk.cpp:121-124 | every index a face sequence produces names a vertex that the same sequence added |
| Geometry.MeshSnoc | Source/VoxelDemo/Private/Chunk.cpp:117-125 | one more face extends each buffer by exactly that face's vertices, the quad UVs and the quad's indices based at the vertex count so far |
| Geometry.MeshVerticesAppend | Source/VoxelDemo/Private/Chunk.cpp:117-125 | the vertex buffer of a concatenation of face sequences is the concatenation of their vertex buffers |
| Geometry.MeshUVsAppend | Source/VoxelDemo/Private/Chunk.cpp:117-125 | the UV buffer of a concatenation of face sequences is the concatenation of their UV buffers |
| Geometry.MeshTrianglesAppend | Source/VoxelDemo/Private/Chunk.cpp:117-125 | the index buffer of a concatenation is the first part's indices followed by the second part's, based past the first part's vertices |
| Geometry.AppendedNothing | Source/VoxelDemo/Private/Chunk.cpp:74-76 | buffers hold themselves followed by the geometry of no faces |
| Geometry.AppendedSnoc | Source/VoxelDemo/Private/Chunk.cpp:117-125 | buffers holding a start state and the geometry of a face sequence, grown as CreateFace grows them, hold the start state and the geometry of the sequence plus that face |
| Geometry.AppendedWellFormed | Source/VoxelDemo/Private/Chunk.cpp:117-125 | well-formed buffers that gain the geometry of any face sequence stay well-formed: equal vertex and UV counts, six indices per quad, every index below the vertex count |
| Geometry.MeshFaceAt | Source/VoxelDemo/Private/Chunk.cpp:117-125 | face k owns vertices and UVs [4k, 4k + 4) and indices [6k, 6k + 6), and those indices name its own four vertices |
| Culling.LoopOrderCoversAll | Source/VoxelDemo/Private/Chunk.cpp:86-89 | the direction loop tries every direction, and none twice |
| Culling.LoopOrder | Source/VoxelDemo/Private/Chunk.cpp:86-89 | the order the direction loop tries the six directions in: Back, Down, Front, Left, Right, Up; LoopOrderCoversAll states that it covers every direction once |
| Culling.Prev | Source/VoxelDemo/Private/Chunk.cpp:76-80 | the block the loops visit just before a loop point lies in the chunk and comes earlier in x, y, z order |
| Culling.FacesTowardsMembers | Source/VoxelDemo/Private/Chunk.cpp:86-96 | the faces found over the first k directions are exactly those towards one of them whose neighbour is transparent |
| Culling.FacesAtMembers | Source/VoxelDemo/Private/Chunk.cpp:82-96 | the faces of an in-chunk block are exactly its exposed faces: the block is not Air and the neighbour is transparent |
| Culling.FacesBeforeMembers | Source/VoxelDemo/Private/Chunk.cpp:76-100 | up to any loop point the mesher has emitted exactly the exposed faces of the blocks visited before it |
| Culling.VisibleFaces | Source/VoxelDemo/Private/Chunk.cpp:76-100 | the faces the mesher emits, in emission order; it has no ensures of its own: VisibleFacesExactly and VisibleFacesOnce state that it holds every exposed face exactly once |
| Culling.VisibleFacesExactly | Source/VoxelDemo/Private/Chunk.cpp:76-100 | a face is emitted if and only if its block is in the chunk and not Air and its neighbour that way is transparent |
| Culling.FacesTowardsDistinct | Source/VoxelDemo/Private/Chunk.cpp:86-96 | the faces one block emits over the first k directions of the loop are pairwise different |
| Culling.FacesBeforeDistinct | Source/VoxelDemo/Private/Chunk.cpp:76-100 | up to any loop point the mesher has emitted no face twice |
| Culling.VisibleFacesOnce | Source/VoxelDemo/Private/Chunk.cpp:76-100 | every exposed face is emitted exactly once: the emitted faces are pairwise different, so their number, which sets the buffer sizes, is the number of exposed faces |
| Culling.AllAirHasNoFaces | Source/VoxelDemo/Private/Chunk.cpp:82 | an all-Air chunk yields no faces |
| Culling.EnclosedBlockHasNoFaces | Source/VoxelDemo/Private/Chunk.cpp:82-95 | a block whose six neighbours are all in the chunk and not Air emits no face |
| Culling.BoundaryFaceEmitted | Source/VoxelDemo/Private/Chunk.cpp:92-94 | a solid block facing out of the chunk always emits that face, since Check treats outside as transparent |
| Voxel.Chunk.constructor | Source/VoxelDemo/Private/Chunk.cpp:13-31 | the block array is sized to size³ cells, all Null, and the mesh buffers start empty with a zero vertex count |
| Voxel.Chunk.GenerateBlocks | Source/VoxelDemo/Private/Chunk.cpp:43-72 | after the fill the block array is exactly the terrain grid of the clamped heights |
| Voxel.Chunk.GetFaceVertices | Source/VoxelDemo/Private/Chunk.cpp:127-136 | the four-step loop builds exactly the face's vertices, corner i read through face-table slot i + 4·ordinal |
| Voxel.Chunk.CreateFace | Source/VoxelDemo/Private/Chunk.cpp:117-125 | the buffers gain the face's vertices, the quad UVs and the quad's indices based at the old vertex count; the count grows by 4; well-formed buffers stay well-formed |
| Voxel.Chunk.MeshBlock | Source/VoxelDemo/Private/Chunk.cpp:82-97 | meshing one block takes the buffers from the faces emitted before it to those emitted before the next block of its column |
| Voxel.Chunk.MeshDirection | Source/VoxelDemo/Private/Chunk.cpp:90-96 | one turn of the direction loop adds the face towards that direction exactly when its neighbour is transparent |
| Voxel.Chunk.MeshColumn | Source/VoxelDemo/Private/Chunk.cpp:80-98 | meshing column (x, y) takes the buffers from the faces before the column to the faces before column (x, y + 1) |
| Voxel.Chunk.MeshSlice | Source/VoxelDemo/Private/Chunk.cpp:78-99 | meshing slice x takes the buffers from the faces before slice x to the faces before slice x + 1 |
| Voxel.Chunk.GenerateMesh | Source/VoxelDemo/Private/Chunk.cpp:74-101 | the buffers gain exactly the geometry of the visible faces, in emission order; well-formed buffers stay well-formed; the block array is unchanged |
| Voxel.Chunk.BeginPlay | Source/VoxelDemo/Private/Chunk.cpp:34-41 | after the fill and the mesher, the blocks are the terrain grid and the buffers gain exactly the geometry of that terrain's visible faces |
| Culling.TowardsNext | Source/VoxelDemo/Private/Chunk.cpp:86-96 | trying direction i adds the face towards it when that neighbour is transparent, and nothing otherwise |
| Culling.BlockStep | Source/VoxelDemo/Private/Chunk.cpp:80-98 | meshing block (x, y, z) moves the emission on to (x, y, z + 1), adding exactly that block's faces |
| Culling.ColumnEnd | Source/VoxelDemo/Private/Chunk.cpp:78-99 | finishing column (x, y) and starting column (x, y + 1) are the same point of the emission |
| Culling.SliceEnd | Source/VoxelDemo/Private/Chunk.cpp:76-100 | finishing slice x and starting slice x + 1 are the same point of the emission |
| Voxel.FillStep | Source/VoxelDemo/Private/Chunk.cpp:61-69 | writing the terrain block of (x, y, z) extends the region filled in loop order by that one cell |
| Voxel.FilledAll | Source/VoxelDemo/Private/Chunk.cpp:47-72 | an array filled up to the end of the x loop is the terrain grid |
| Voxel.Chunk.NothingEmitted | Source/VoxelDemo/Private/Chunk.cpp:74-76 | before the first block the buffers hold their start state followed by the geometry of no faces |
| Voxel.Chunk.BlockStart | Source/VoxelDemo/Private/Chunk.cpp:82-89 | before the first direction, a block that is not Air has added no faces |
| Voxel.Chunk.FaceCreated | Source/VoxelDemo/Private/Chunk.cpp:92-95 | when the neighbour is transparent, the buffers as CreateFace leaves them hold one more face: the face towards that direction |
| Voxel.Chunk.NoFace | Source/VoxelDemo/Private/Chunk.cpp:92-95 | when the neighbour is opaque, the buffers already hold the faces of one more direction |
| Voxel.Chunk.BlockEnd | Source/VoxelDemo/Private/Chunk.cpp:82-97 | after all six directions, a block that is not Air has added exactly its own faces |
| Voxel.Chunk.AirBlock | Source/VoxelDemo/Private/Chunk.cpp:82 | an Air block adds no faces |
| Voxel.Chunk.ColumnDone | Source/VoxelDemo/Private/Chunk.cpp:78-99 | the buffers at the end of column (x, y) hold the faces emitted before column (x, y + 1) |
| Voxel.Chunk.SliceDone | Source/VoxelDemo/Private/Chunk.cpp:76-100 | the buffers at the end of slice x hold the faces emitted before slice x + 1 |

## Left out

- Noise: the `FastNoiseLite` sampling and its configuration, the sampling coordinates, and `RoundToInt` are left out. Each column's rounded height is an input function `heights(x, y)`. Only the clamp to [0, Size] is modelled.
- Floating point: `FVector`, `FVector2D` and the float `Scale` are integers in the model. Block positions, corners and UVs are whole numbers, so only the values are modelled, not float rounding.
- `ApplyMesh`: the engine call that uploads the buffers is not modelled. `BeginPlay` is modelled up to that call.
- Engine glue: the constructor's subobject setup, the tick flag, the shadow setting, `Tick` and the `UE_LOG` line are not modelled. These are engine calls and I/O.
- Integer width: `GetBlockIndex`, `VertexCount` and the triangle indices are `int32` in the source but unbounded integers in the model. 32-bit overflow is not modelled; it cannot occur at the default edge of 32.
- `Size`: the model requires a positive edge, while the source takes whatever the editor property holds. A size of 0 or less would give an empty or negative-sized array.
- Neighbouring chunks are not consulted: `Check` treats every position outside the chunk as transparent, exactly as the source does.
