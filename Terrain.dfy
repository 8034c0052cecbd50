/**
 * The height-field terrain of a chunk: each (x, y) column is Stone below its
 * clamped surface height and Air from that height up.
 */
module Terrain {
  import opened Enums
  import opened Grid

  /**
   * The clamp applied to a column's rounded noise height, FMath::Clamp(h, 0, n):
   * the result always lies in [0, n], equals h when h already does, and
   * saturates at the nearer bound otherwise.
   */
  function ClampHeight(h: int, n: int): (r: int)
    requires 0 <= n
    ensures 0 <= r <= n
    ensures 0 <= h <= n ==> r == h
    ensures h < 0 ==> r == 0
    ensures h > n ==> r == n
  {
    if h < 0 then 0 else if h < n then h else n
  }

  /** The block the terrain fill puts at (x, y, z), given the raw height of every column. */
  function TerrainBlock(n: int, heights: (int, int) -> int, x: int, y: int, z: int): Block
    requires 0 <= n
  {
    if z < ClampHeight(heights(x, y), n) then Stone else Air
  }

  /**
   * The whole block array after the terrain fill: every one of its n^3 cells
   * is written, and the cell of (x, y, z) is Stone exactly when z is below
   * the clamped height of column (x, y), Air otherwise.
   */
  function TerrainGrid(n: int, heights: (int, int) -> int): (g: seq<Block>)
    requires 0 < n
    ensures GridShape(g, n)
    ensures forall x, y, z :: 0 <= x < n && 0 <= y < n && 0 <= z < n ==>
              g[GetBlockIndex(n, x, y, z)] == if z < ClampHeight(heights(x, y), n) then Stone else Air
  {
    GetBlockIndexDecodesAll(n);
    seq(n * n * n, i requires 0 <= i < n * n * n =>
      TerrainBlock(n, heights, DecodeIndex(n, i).x, DecodeIndex(n, i).y, DecodeIndex(n, i).z))
  }

  /**
   * A terrain column has no overhangs: below a Stone cell every cell of the
   * same column is Stone, and above an Air cell every cell is Air.
   */
  lemma ColumnIsSolidBelowSurface(n: int, heights: (int, int) -> int, x: int, y: int, z1: int, z2: int)
    requires 0 < n && 0 <= x < n && 0 <= y < n && 0 <= z1 <= z2 < n
    ensures TerrainGrid(n, heights)[GetBlockIndex(n, x, y, z2)] == Stone ==>
              TerrainGrid(n, heights)[GetBlockIndex(n, x, y, z1)] == Stone
    ensures TerrainGrid(n, heights)[GetBlockIndex(n, x, y, z1)] == Air ==>
              TerrainGrid(n, heights)[GetBlockIndex(n, x, y, z2)] == Air
  {
  }

  /** A flat terrain whose raw heights are all at most 0 is Air everywhere. */
  lemma {:induction false} LowTerrainIsAllAir(n: int, heights: (int, int) -> int)
    requires 0 < n
    requires forall x, y :: heights(x, y) <= 0
    ensures forall i :: 0 <= i < |TerrainGrid(n, heights)| ==> TerrainGrid(n, heights)[i] == Air
  {
    var g := TerrainGrid(n, heights);
    forall i | 0 <= i < |g|
      ensures g[i] == Air
    {
      DecodeIndexRoundTrip(n, i);
      var p := DecodeIndex(n, i);
      assert g[GetBlockIndex(n, p.x, p.y, p.z)] == Air;
    }
  }

  /** A terrain whose raw heights all reach at least n is Stone everywhere. */
  lemma {:induction false} HighTerrainIsAllStone(n: int, heights: (int, int) -> int)
    requires 0 < n
    requires forall x, y :: heights(x, y) >= n
    ensures forall i :: 0 <= i < |TerrainGrid(n, heights)| ==> TerrainGrid(n, heights)[i] == Stone
  {
    var g := TerrainGrid(n, heights);
    forall i | 0 <= i < |g|
      ensures g[i] == Stone
    {
      DecodeIndexRoundTrip(n, i);
      var p := DecodeIndex(n, i);
      assert g[GetBlockIndex(n, p.x, p.y, p.z)] == Stone;
    }
  }

  /**
   * The fill writes every cell: no cell of the terrain grid keeps the Null
   * the array was sized with; each is Stone or Air.
   */
  lemma {:induction false} TerrainGridWritesEveryCell(n: int, heights: (int, int) -> int)
    requires 0 < n
    ensures forall i :: 0 <= i < |TerrainGrid(n, heights)| ==>
              TerrainGrid(n, heights)[i] == Stone || TerrainGrid(n, heights)[i] == Air
  {
    var g := TerrainGrid(n, heights);
    forall i | 0 <= i < |g|
      ensures g[i] == Stone || g[i] == Air
    {
      DecodeIndexRoundTrip(n, i);
      var p := DecodeIndex(n, i);
      assert g[GetBlockIndex(n, p.x, p.y, p.z)] == TerrainBlock(n, heights, p.x, p.y, p.z);
    }
  }
}
