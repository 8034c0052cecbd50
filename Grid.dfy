/**
 * The block grid of one chunk: integer positions, the flattening of a
 * position to an index into the block array, the neighbour of a position in
 * a direction, and the transparency test the mesher applies to neighbours.
 */
module Grid {
  import opened Enums

  /** A position or a vertex (an FVector whose components are whole numbers). */
  datatype Vec = Vec(x: int, y: int, z: int)

  /** Componentwise sum. */
  function Add(a: Vec, b: Vec): Vec
  {
    Vec(a.x + b.x, a.y + b.y, a.z + b.z)
  }

  /** Scaling by an integer factor. */
  function Mul(a: Vec, k: int): Vec
  {
    Vec(a.x * k, a.y * k, a.z * k)
  }

  /** The component of `v` along axis 0 (X), 1 (Y) or 2 (Z). */
  function Component(v: Vec, axis: int): int
  {
    if axis == 0 then v.x else if axis == 1 then v.y else v.z
  }

  /** Every coordinate of `p` lies in [0, n). */
  predicate InBounds(n: int, p: Vec)
  {
    0 <= p.x < n && 0 <= p.y < n && 0 <= p.z < n
  }

  /**
   * Position q comes before position p in the order of the nested x, y, z
   * loops that fill and mesh a chunk (x outermost, z innermost).
   */
  predicate VisitedBefore(q: Vec, p: Vec)
  {
    q.x < p.x || (q.x == p.x && (q.y < p.y || (q.y == p.y && q.z < p.z)))
  }

  /** The block array of an edge-`n` chunk holds exactly n*n*n blocks. */
  predicate GridShape(g: seq<Block>, n: int)
  {
    0 < n && |g| == n * n * n
  }

  /** The inverse of the flattening: index i back to (x, y, z). */
  function DecodeIndex(n: int, i: int): Vec
    requires n > 0
  {
    Vec(i % n, (i / n) % n, i / n / n)
  }

  /** Euclidean division of q*n + x by n, for a remainder x in [0, n). */
  lemma DivModOf(q: int, n: int, x: int)
    requires n > 0 && 0 <= x < n
    ensures (q * n + x) / n == q && (q * n + x) % n == x
  {
    var i := q * n + x;
    var d, m := i / n, i % n;
    assert (q - d) * n == m - x;
    if q - d != 0 {
      MulAtLeast(q - d, n);
    }
  }

  /** A non-zero multiple of a positive n is at least n away from zero. */
  lemma MulAtLeast(k: int, n: int)
    requires n > 0 && k != 0
    ensures k * n >= n || k * n <= -n
  {
    if k > 0 {
      MulMono(1, k, n);
    } else {
      MulMono(k, -1, n);
    }
  }

  /** Multiplying by a non-negative factor keeps order. */
  lemma MulMono(a: int, b: int, n: int)
    requires a <= b && 0 <= n
    ensures a * n <= b * n
  {
    assert b * n - a * n == (b - a) * n;
  }

  /** z*n + y, for y and z in [0, n), lies in [0, n*n). */
  lemma ColumnIndexBelow(n: int, y: int, z: int)
    requires 0 <= y < n && 0 <= z < n
    ensures 0 <= z * n + y < n * n
  {
    MulMono(0, z, n);
    MulMono(z, n - 1, n);
    assert (n - 1) * n == n * n - n;
  }

  /** q*n + x, for q in [0, n*n) and x in [0, n), lies in [0, n*n*n). */
  lemma CellIndexBelow(n: int, q: int, x: int)
    requires 0 <= x < n && 0 <= q < n * n
    ensures 0 <= q * n + x < n * n * n
  {
    MulMono(0, q, n);
    MulMono(q, n * n - 1, n);
    assert (n * n - 1) * n == n * n * n - n;
  }

  /** The flattening formula lands in [0, n^3) and decodes back to its position. */
  lemma IndexDecodes(n: int, x: int, y: int, z: int)
    ensures 0 <= x < n && 0 <= y < n && 0 <= z < n ==>
              0 <= z * n * n + y * n + x < n * n * n &&
              DecodeIndex(n, z * n * n + y * n + x) == Vec(x, y, z)
  {
    if 0 <= x < n && 0 <= y < n && 0 <= z < n {
      var q := z * n + y;
      assert z * n * n + y * n + x == q * n + x;
      ColumnIndexBelow(n, y, z);
      CellIndexBelow(n, q, x);
      DivModOf(q, n, x);
      DivModOf(z, n, y);
    }
  }

  /**
   * GetBlockIndex: the position (x, y, z) of an edge-`n` chunk is stored at
   * index z*n*n + y*n + x. On [0, n)^3 the index lies in [0, n^3), the
   * length of the block array.
   */
  function GetBlockIndex(n: int, x: int, y: int, z: int): (r: int)
    ensures 0 <= x < n && 0 <= y < n && 0 <= z < n ==> 0 <= r < n * n * n
  {
    IndexDecodes(n, x, y, z);
    z * n * n + y * n + x
  }

  /** The index of a position of the chunk decodes back to that position. */
  lemma GetBlockIndexDecodes(n: int, x: int, y: int, z: int)
    requires 0 <= x < n && 0 <= y < n && 0 <= z < n
    ensures DecodeIndex(n, GetBlockIndex(n, x, y, z)) == Vec(x, y, z)
  {
    IndexDecodes(n, x, y, z);
  }

  /** Every position of the chunk decodes from its own index. */
  lemma GetBlockIndexDecodesAll(n: int)
    ensures forall x, y, z :: 0 <= x < n && 0 <= y < n && 0 <= z < n ==>
              DecodeIndex(n, GetBlockIndex(n, x, y, z)) == Vec(x, y, z)
  {
    forall x, y, z | 0 <= x < n && 0 <= y < n && 0 <= z < n
      ensures DecodeIndex(n, GetBlockIndex(n, x, y, z)) == Vec(x, y, z)
    {
      GetBlockIndexDecodes(n, x, y, z);
    }
  }

  /** Two positions of the chunk share an index only if they are the same position. */
  lemma GetBlockIndexInjective(n: int, p: Vec, q: Vec)
    requires InBounds(n, p) && InBounds(n, q)
    ensures GetBlockIndex(n, p.x, p.y, p.z) == GetBlockIndex(n, q.x, q.y, q.z) <==> p == q
  {
    GetBlockIndexDecodes(n, p.x, p.y, p.z);
    GetBlockIndexDecodes(n, q.x, q.y, q.z);
  }

  /** Every index of the block array is the index of exactly the position it decodes to. */
  lemma {:induction false} DecodeIndexRoundTrip(n: int, i: int)
    requires 0 <= i < n * n * n
    ensures n > 0 && InBounds(n, DecodeIndex(n, i))
    ensures GetBlockIndex(n, DecodeIndex(n, i).x, DecodeIndex(n, i).y, DecodeIndex(n, i).z) == i
  {
    assert n > 0 by {
      if n <= 0 {
        MulMono(n, 0, n * n);
      }
    }
    QuotientBelow(i, n, n * n);
    var q := i / n;
    QuotientBelow(q, n, n);
    var p := DecodeIndex(n, i);
    assert p == Vec(i % n, q % n, q / n);
    assert q == p.z * n + p.y;
    assert i == q * n + p.x;
    assert p.z * n * n + p.y * n + p.x == (p.z * n + p.y) * n + p.x;
  }

  /** A number below m*n, divided by n, is below m. */
  lemma QuotientBelow(i: int, n: int, m: int)
    requires n > 0 && 0 <= i < m * n
    ensures 0 <= i / n < m
  {
    if i / n >= m {
      MulMono(m, i / n, n);
    }
  }

  /** The block at an in-bounds position. */
  function BlockAt(g: seq<Block>, n: int, p: Vec): Block
    requires GridShape(g, n) && InBounds(n, p)
  {
    g[GetBlockIndex(n, p.x, p.y, p.z)]
  }

  /**
   * GetPositionInDirection: the neighbour one step from `p` towards `d`
   * (Front +X, Back -X, Left -Y, Right +Y, Up +Z, Down -Z).
   */
  function GetPositionInDirection(d: Direction, p: Vec): Vec
  {
    match d
    case Front => Add(p, Vec(1, 0, 0))
    case Back => Add(p, Vec(-1, 0, 0))
    case Left => Add(p, Vec(0, -1, 0))
    case Right => Add(p, Vec(0, 1, 0))
    case Up => Add(p, Vec(0, 0, 1))
    case Down => Add(p, Vec(0, 0, -1))
  }

  /** Exactly the coordinate on the direction's axis changes, by the direction's sign. */
  lemma GetPositionInDirectionMoves(d: Direction, p: Vec)
    ensures Component(GetPositionInDirection(d, p), Axis(d)) == Component(p, Axis(d)) + Sign(d)
    ensures forall a :: 0 <= a < 3 && a != Axis(d) ==> Component(GetPositionInDirection(d, p), a) == Component(p, a)
  {
  }

  /** Stepping towards `d` and then towards its opposite returns to the start. */
  lemma StepBack(d: Direction, p: Vec)
    ensures GetPositionInDirection(Opposite(d), GetPositionInDirection(d, p)) == p
  {
  }

  /** The six neighbours of a position are six different positions. */
  lemma NeighboursDistinct(d1: Direction, d2: Direction, p: Vec)
    ensures GetPositionInDirection(d1, p) == GetPositionInDirection(d2, p) <==> d1 == d2
  {
  }

  /** The error a neighbour lookup raises for a value outside the enumeration. */
  datatype Error = InvalidDirection

  datatype Result<T> = Success(value: T) | Failure(error: Error)

  /**
   * The neighbour lookup applied to a raw enumeration value: the six valid
   * ordinals step as GetPositionInDirection does, any other value is the
   * invalid-direction error.
   */
  function NeighbourOfOrdinal(k: int, p: Vec): (r: Result<Vec>)
    ensures r.Failure? <==> !(0 <= k < 6)
    ensures r.Failure? ==> r.error == InvalidDirection
    ensures r.Success? ==> exists d :: Ordinal(d) == k && r.value == GetPositionInDirection(d, p)
  {
    match DirectionFromOrdinal(k)
    case None => Failure(InvalidDirection)
    case Some(d) => Success(GetPositionInDirection(d, p))
  }

  /**
   * Check: a position is transparent when any coordinate is outside [0, n),
   * decided before the grid is read, or when the block there is Air.
   */
  function Check(g: seq<Block>, n: int, p: Vec): (r: bool)
    requires GridShape(g, n)
    ensures !InBounds(n, p) ==> r
    ensures InBounds(n, p) ==> (r <==> BlockAt(g, n, p) == Air)
  {
    if p.x >= n || p.y >= n || p.z >= n || p.x < 0 || p.y < 0 || p.z < 0 then
      true
    else
      g[GetBlockIndex(n, p.x, p.y, p.z)] == Air
  }
}
