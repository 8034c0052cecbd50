/**
 * Naive face culling: the sequence of faces the mesher emits for a block
 * grid, in the order its loops visit them, and what that sequence contains.
 */
module Culling {
  import opened Enums
  import opened Grid
  import opened Geometry

  /**
   * The order the mesher tries the six directions in at each block. It is
   * not the declaration order of Direction, which the face table follows.
   */
  const LoopOrder: seq<Direction> := [Back, Down, Front, Left, Right, Up]

  /** The loop tries every direction, each exactly once. */
  lemma LoopOrderCoversAll(d: Direction)
    ensures d in LoopOrder
    ensures forall i, j :: 0 <= i < j < |LoopOrder| ==> LoopOrder[i] != LoopOrder[j]
  {
  }

  /**
   * A face is exposed when its block lies in the chunk, is not Air, and the
   * neighbour it looks towards is transparent.
   */
  predicate Exposed(g: seq<Block>, n: int, f: Face)
    requires GridShape(g, n)
  {
    InBounds(n, f.pos) && BlockAt(g, n, f.pos) != Air && Check(g, n, GetPositionInDirection(f.dir, f.pos))
  }

  /** The faces of block p towards the first k directions of the loop whose neighbour is transparent. */
  function FacesTowards(g: seq<Block>, n: int, p: Vec, k: int): seq<Face>
    requires GridShape(g, n) && 0 <= k <= |LoopOrder|
    decreases k
  {
    if k == 0 then []
    else
      var d := LoopOrder[k - 1];
      FacesTowards(g, n, p, k - 1) + if Check(g, n, GetPositionInDirection(d, p)) then [Face(p, d)] else []
  }

  /** The faces emitted at block p: none for Air, else one per transparent neighbour. */
  function FacesAt(g: seq<Block>, n: int, p: Vec): seq<Face>
    requires GridShape(g, n) && InBounds(n, p)
  {
    if BlockAt(g, n, p) != Air then FacesTowards(g, n, p, |LoopOrder|) else []
  }

  /**
   * A position the mesher's x, y, z loops can stand at: a block of the chunk,
   * or the point where a z loop (z == n), a y loop (y == n) or the x loop
   * (x == n) has just finished.
   */
  predicate LoopPoint(n: int, p: Vec)
  {
    0 <= p.x <= n && 0 <= p.y <= n && 0 <= p.z <= n &&
    (p.x == n ==> p.y == 0 && p.z == 0) && (p.y == n ==> p.z == 0)
  }

  /**
   * The block the loops visit just before reaching loop point p (other than
   * the origin): one step back in z, else the top of the previous column,
   * else the last block of the previous slice.
   */
  function Prev(n: int, p: Vec): (q: Vec)
    requires 0 < n && LoopPoint(n, p) && p != Vec(0, 0, 0)
    ensures InBounds(n, q) && VisitedBefore(q, p)
  {
    if p.z > 0 then Vec(p.x, p.y, p.z - 1)
    else if p.y > 0 then Vec(p.x, p.y - 1, n - 1)
    else Vec(p.x - 1, n - 1, n - 1)
  }

  /**
   * The faces the mesher has emitted when its loops reach loop point p: the
   * faces of every block visited before p, block after block.
   */
  function FacesBefore(g: seq<Block>, n: int, p: Vec): seq<Face>
    requires GridShape(g, n) && LoopPoint(n, p)
    decreases p.x, p.y, p.z
  {
    if p == Vec(0, 0, 0) then [] else FacesBefore(g, n, Prev(n, p)) + FacesAt(g, n, Prev(n, p))
  }

  /** Every face the mesher emits for grid g, in emission order. */
  function VisibleFaces(g: seq<Block>, n: int): seq<Face>
    requires GridShape(g, n)
  {
    FacesBefore(g, n, Vec(n, 0, 0))
  }

  /** Trying direction LoopOrder[i] at block p extends the faces found so far by at most that one face. */
  lemma TowardsNext(g: seq<Block>, n: int, p: Vec, i: int, done: seq<Face>)
    requires GridShape(g, n) && 0 <= i < |LoopOrder|
    ensures Check(g, n, GetPositionInDirection(LoopOrder[i], p)) ==>
              done + FacesTowards(g, n, p, i + 1) == (done + FacesTowards(g, n, p, i)) + [Face(p, LoopOrder[i])]
    ensures !Check(g, n, GetPositionInDirection(LoopOrder[i], p)) ==>
              done + FacesTowards(g, n, p, i + 1) == done + FacesTowards(g, n, p, i)
  {
    assert FacesTowards(g, n, p, i + 1) ==
           FacesTowards(g, n, p, i) + if Check(g, n, GetPositionInDirection(LoopOrder[i], p)) then [Face(p, LoopOrder[i])] else [];
  }

  /** Meshing block p moves the loops on to (p.x, p.y, p.z + 1), adding the faces of p. */
  lemma BlockStep(g: seq<Block>, n: int, p: Vec)
    requires GridShape(g, n) && InBounds(n, p)
    ensures FacesBefore(g, n, Vec(p.x, p.y, p.z + 1)) == FacesBefore(g, n, p) + FacesAt(g, n, p)
  {
    assert Prev(n, Vec(p.x, p.y, p.z + 1)) == p;
  }

  /** Reaching the end of column (x, y) and the start of column (x, y + 1) emits the same faces. */
  lemma ColumnEnd(g: seq<Block>, n: int, x: int, y: int)
    requires GridShape(g, n) && 0 <= x < n && 0 <= y < n
    ensures FacesBefore(g, n, Vec(x, y, n)) == FacesBefore(g, n, Vec(x, y + 1, 0))
  {
  }

  /** Reaching the end of slice x and the start of slice x + 1 emits the same faces. */
  lemma SliceEnd(g: seq<Block>, n: int, x: int)
    requires GridShape(g, n) && 0 <= x < n
    ensures FacesBefore(g, n, Vec(x, n, 0)) == FacesBefore(g, n, Vec(x + 1, 0, 0))
  {
  }

  /**
   * The faces found at p over the first k directions of the loop are exactly
   * the faces of p towards one of those directions whose neighbour is transparent.
   */
  lemma {:induction false} FacesTowardsMembers(g: seq<Block>, n: int, p: Vec, k: int, f: Face)
    requires GridShape(g, n) && 0 <= k <= |LoopOrder|
    ensures f in FacesTowards(g, n, p, k) <==>
              f.pos == p && f.dir in LoopOrder[..k] && Check(g, n, GetPositionInDirection(f.dir, p))
    decreases k
  {
    if k > 0 {
      FacesTowardsMembers(g, n, p, k - 1, f);
      assert LoopOrder[..k] == LoopOrder[..k - 1] + [LoopOrder[k - 1]];
    }
  }

  /** The faces emitted at an in-bounds block are exactly its exposed faces. */
  lemma FacesAtMembers(g: seq<Block>, n: int, p: Vec, f: Face)
    requires GridShape(g, n) && InBounds(n, p)
    ensures f in FacesAt(g, n, p) <==> f.pos == p && Exposed(g, n, f)
  {
    FacesTowardsMembers(g, n, p, |LoopOrder|, f);
    assert LoopOrder[..|LoopOrder|] == LoopOrder;
    LoopOrderCoversAll(f.dir);
  }

  /** Up to loop point p the mesher emits exactly the exposed faces of the blocks visited before p. */
  lemma {:induction false} FacesBeforeMembers(g: seq<Block>, n: int, p: Vec, f: Face)
    requires GridShape(g, n) && LoopPoint(n, p)
    ensures f in FacesBefore(g, n, p) <==> InBounds(n, f.pos) && VisitedBefore(f.pos, p) && Exposed(g, n, f)
    decreases p.x, p.y, p.z
  {
    if p != Vec(0, 0, 0) {
      var q := Prev(n, p);
      FacesBeforeMembers(g, n, q, f);
      FacesAtMembers(g, n, q, f);
    }
  }

  /**
   * The mesher emits a face (p, d) exactly when p is a block of the chunk
   * that is not Air and the neighbour of p towards d is transparent.
   */
  lemma VisibleFacesExactly(g: seq<Block>, n: int, f: Face)
    requires GridShape(g, n)
    ensures f in VisibleFaces(g, n) <==> Exposed(g, n, f)
  {
    FacesBeforeMembers(g, n, Vec(n, 0, 0), f);
  }

  /** No face occurs twice in fs. */
  predicate Distinct(fs: seq<Face>)
  {
    forall i, j :: 0 <= i < j < |fs| ==> fs[i] != fs[j]
  }

  /** Two face sequences without repeats and without a common face concatenate without repeats. */
  lemma DistinctAppend(a: seq<Face>, b: seq<Face>)
    requires Distinct(a) && Distinct(b)
    requires forall f :: f in a ==> f !in b
    ensures Distinct(a + b)
  {
    forall i, j | 0 <= i < j < |a + b|
      ensures (a + b)[i] != (a + b)[j]
    {
      if j < |a| {
        assert (a + b)[i] == a[i] && (a + b)[j] == a[j];
      } else if i >= |a| {
        assert (a + b)[i] == b[i - |a|] && (a + b)[j] == b[j - |a|];
      } else {
        assert (a + b)[i] == a[i] && (a + b)[j] == b[j - |a|];
        assert a[i] in a && b[j - |a|] in b;
      }
    }
  }

  /** The faces of one block found over the first k directions are all different. */
  lemma {:induction false} FacesTowardsDistinct(g: seq<Block>, n: int, p: Vec, k: int)
    requires GridShape(g, n) && 0 <= k <= |LoopOrder|
    ensures Distinct(FacesTowards(g, n, p, k))
    decreases k
  {
    if k > 0 {
      var earlier := FacesTowards(g, n, p, k - 1);
      var d := LoopOrder[k - 1];
      FacesTowardsDistinct(g, n, p, k - 1);
      if Check(g, n, GetPositionInDirection(d, p)) {
        forall f | f in earlier
          ensures f !in [Face(p, d)]
        {
          FacesTowardsMembers(g, n, p, k - 1, f);
          LoopOrderCoversAll(d);
        }
        DistinctAppend(earlier, [Face(p, d)]);
      } else {
        assert FacesTowards(g, n, p, k) == earlier + [];
      }
    }
  }

  /** Up to any loop point the mesher has emitted no face twice. */
  lemma {:induction false} FacesBeforeDistinct(g: seq<Block>, n: int, p: Vec)
    requires GridShape(g, n) && LoopPoint(n, p)
    ensures Distinct(FacesBefore(g, n, p))
    decreases p.x, p.y, p.z
  {
    if p != Vec(0, 0, 0) {
      var q := Prev(n, p);
      FacesBeforeDistinct(g, n, q);
      FacesTowardsDistinct(g, n, q, |LoopOrder|);
      assert Distinct(FacesAt(g, n, q));
      forall f | f in FacesBefore(g, n, q)
        ensures f !in FacesAt(g, n, q)
      {
        FacesBeforeMembers(g, n, q, f);
        FacesAtMembers(g, n, q, f);
      }
      DistinctAppend(FacesBefore(g, n, q), FacesAt(g, n, q));
    }
  }

  /** A sequence without repeats has as many elements as the set of its elements. */
  lemma {:induction false} DistinctCardinality(fs: seq<Face>)
    requires Distinct(fs)
    ensures |fs| == |set f | f in fs|
    decreases |fs|
  {
    if fs != [] {
      var init, last := fs[..|fs| - 1], fs[|fs| - 1];
      assert Distinct(init);
      DistinctCardinality(init);
      assert last !in init;
      assert (set f | f in fs) == (set f | f in init) + {last} by {
        assert fs == init + [last];
      }
    }
  }

  /**
   * The mesher emits every exposed face exactly once: the faces are pairwise
   * different, so their number is the number of exposed faces.
   */
  lemma VisibleFacesOnce(g: seq<Block>, n: int)
    requires GridShape(g, n)
    ensures Distinct(VisibleFaces(g, n))
    ensures |VisibleFaces(g, n)| == |set f | f in VisibleFaces(g, n)|
    ensures forall f :: f in VisibleFaces(g, n) <==> Exposed(g, n, f)
  {
    FacesBeforeDistinct(g, n, Vec(n, 0, 0));
    DistinctCardinality(VisibleFaces(g, n));
    forall f
      ensures f in VisibleFaces(g, n) <==> Exposed(g, n, f)
    {
      VisibleFacesExactly(g, n, f);
    }
  }

  /** A grid that is Air everywhere yields no faces at all. */
  lemma AllAirHasNoFaces(g: seq<Block>, n: int)
    requires GridShape(g, n)
    requires forall i :: 0 <= i < |g| ==> g[i] == Air
    ensures VisibleFaces(g, n) == []
  {
    if VisibleFaces(g, n) != [] {
      VisibleFacesExactly(g, n, VisibleFaces(g, n)[0]);
    }
  }

  /** A block whose six neighbours all lie in the chunk and are not Air emits no face. */
  lemma EnclosedBlockHasNoFaces(g: seq<Block>, n: int, p: Vec, d: Direction)
    requires GridShape(g, n)
    requires forall e :: InBounds(n, GetPositionInDirection(e, p)) &&
                         BlockAt(g, n, GetPositionInDirection(e, p)) != Air
    ensures Face(p, d) !in VisibleFaces(g, n)
  {
    VisibleFacesExactly(g, n, Face(p, d));
  }

  /** The chunk's boundary never hides a face: a solid block facing out of the chunk emits that face. */
  lemma BoundaryFaceEmitted(g: seq<Block>, n: int, p: Vec, d: Direction)
    requires GridShape(g, n) && InBounds(n, p) && BlockAt(g, n, p) != Air
    requires !InBounds(n, GetPositionInDirection(d, p))
    ensures Face(p, d) in VisibleFaces(g, n)
  {
    VisibleFacesExactly(g, n, Face(p, d));
  }
}
