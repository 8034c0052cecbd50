/**
 * The geometry of one emitted face and of a whole sequence of faces: the four
 * vertices read from the corner table, the fixed UVs and the six triangle
 * indices of a quad, and the three mesh buffers a face sequence produces.
 */
module Geometry {
  import opened Enums
  import opened Grid

  /** World units per block step applied to a block position before its face is emitted. */
  const I100: int := 100

  /** A texture coordinate (FVector2D with whole-number components). */
  datatype UV = UV(u: int, v: int)

  /** One face of one block: the block's position and the direction the face looks towards. */
  datatype Face = Face(pos: Vec, dir: Direction)

  /**
   * The face tables: 8 unit-cube corners, and 24 corner indices (4 per
   * direction, in direction-ordinal order), each naming one of the corners.
   */
  predicate TablesValid(corners: seq<Vec>, indices: seq<int>)
  {
    |corners| == 8 && |indices| == 24 &&
    forall k :: 0 <= k < |indices| ==> 0 <= indices[k] < |corners|
  }

  /**
   * The slot of the index table read for corner i of a face towards d: the
   * four slots of a direction form the block [4*Ordinal(d), 4*Ordinal(d) + 4).
   */
  function FaceSlot(d: Direction, i: int): (k: int)
    ensures 0 <= i < 4 ==> 4 * Ordinal(d) <= k < 4 * Ordinal(d) + 4 && 0 <= k < 24
  {
    i + Ordinal(d) * 4
  }

  /** Each slot of the index table is read for exactly one (direction, corner) pair. */
  lemma FaceSlotInjective(d1: Direction, i1: int, d2: Direction, i2: int)
    requires 0 <= i1 < 4 && 0 <= i2 < 4
    ensures FaceSlot(d1, i1) == FaceSlot(d2, i2) <==> d1 == d2 && i1 == i2
  {
    if FaceSlot(d1, i1) == FaceSlot(d2, i2) {
      assert Ordinal(d1) == Ordinal(d2);
      OrdinalRoundTrip(d1);
      OrdinalRoundTrip(d2);
    }
  }

  /**
   * The four vertices of the face towards d of the block placed at
   * `position`: table corner number indices[FaceSlot(d, i)], scaled, then
   * moved to `position`.
   */
  function FaceVertices(corners: seq<Vec>, indices: seq<int>, scale: int, d: Direction, position: Vec): (vs: seq<Vec>)
    requires TablesValid(corners, indices)
    ensures |vs| == 4
  {
    seq(4, i requires 0 <= i < 4 => Add(Mul(corners[indices[FaceSlot(d, i)]], scale), position))
  }

  /**
   * The shape of a face depends on its direction only: moving the block by
   * an offset moves each of the face's vertices by the same offset.
   */
  lemma FaceVerticesTranslate(corners: seq<Vec>, indices: seq<int>, scale: int, d: Direction, position: Vec, offset: Vec)
    requires TablesValid(corners, indices)
    ensures forall i :: 0 <= i < 4 ==>
              FaceVertices(corners, indices, scale, d, Add(position, offset))[i] ==
              Add(FaceVertices(corners, indices, scale, d, position)[i], offset)
  {
  }

  /** The UVs of every face, whatever its direction. */
  const QuadUVs: seq<UV> := [UV(0, 0), UV(1, 0), UV(1, 1), UV(0, 1)]

  /**
   * The two triangles of a quad whose four vertices start at `base`: six
   * indices, all among the quad's own four vertices, using each of them.
   */
  function QuadIndices(base: int): (ts: seq<int>)
    ensures |ts| == 6
    ensures forall k :: 0 <= k < |ts| ==> base <= ts[k] < base + 4
    ensures forall v :: base <= v < base + 4 ==> v in ts
  {
    [base + 3, base + 2, base, base + 2, base + 1, base]
  }

  /**
   * The vertex buffer a face sequence produces: four vertices per face, the
   * block position scaled by I100.
   */
  function MeshVertices(corners: seq<Vec>, indices: seq<int>, scale: int, fs: seq<Face>): (vs: seq<Vec>)
    requires TablesValid(corners, indices)
    ensures |vs| == 4 * |fs|
    decreases |fs|
  {
    if fs == [] then []
    else
      var f := fs[|fs| - 1];
      MeshVertices(corners, indices, scale, fs[..|fs| - 1]) + FaceVertices(corners, indices, scale, f.dir, Mul(f.pos, I100))
  }

  /** The UV buffer a face sequence produces: four UVs per face. */
  function MeshUVs(fs: seq<Face>): (uvs: seq<UV>)
    ensures |uvs| == 4 * |fs|
    decreases |fs|
  {
    if fs == [] then [] else MeshUVs(fs[..|fs| - 1]) + QuadUVs
  }

  /** UV k of a face sequence is the (k mod 4)-th quad UV, whatever the faces' directions. */
  lemma {:induction false} MeshUVsValues(fs: seq<Face>)
    ensures forall k :: 0 <= k < |MeshUVs(fs)| ==> MeshUVs(fs)[k] == QuadUVs[k % 4]
    decreases |fs|
  {
    if fs != [] {
      var init := fs[..|fs| - 1];
      MeshUVsValues(init);
      assert MeshUVs(fs) == MeshUVs(init) + QuadUVs;
      forall k | |MeshUVs(init)| <= k < |MeshUVs(fs)|
        ensures MeshUVs(fs)[k] == QuadUVs[k % 4]
      {
        assert k % 4 == k - 4 * |init|;
      }
    }
  }

  /**
   * The index buffer a face sequence produces when the vertex count stood at
   * `base` before the first face: six indices per face.
   */
  function MeshTriangles(fs: seq<Face>, base: int): (ts: seq<int>)
    ensures |ts| == 6 * |fs|
    decreases |fs|
  {
    if fs == [] then [] else MeshTriangles(fs[..|fs| - 1], base) + QuadIndices(base + 4 * (|fs| - 1))
  }

  /** Every index a face sequence produces names a vertex the same sequence added, in [base, base + 4 * |fs|). */
  lemma {:induction false} MeshTrianglesRange(fs: seq<Face>, base: int)
    ensures forall k :: 0 <= k < |MeshTriangles(fs, base)| ==> base <= MeshTriangles(fs, base)[k] < base + 4 * |fs|
    decreases |fs|
  {
    if fs != [] {
      var init := fs[..|fs| - 1];
      MeshTrianglesRange(init, base);
      assert MeshTriangles(fs, base) == MeshTriangles(init, base) + QuadIndices(base + 4 * (|fs| - 1));
    }
  }

  /** Appending one face extends each buffer by exactly that face's geometry. */
  lemma MeshSnoc(corners: seq<Vec>, indices: seq<int>, scale: int, fs: seq<Face>, f: Face, base: int)
    requires TablesValid(corners, indices)
    ensures MeshVertices(corners, indices, scale, fs + [f]) ==
              MeshVertices(corners, indices, scale, fs) + FaceVertices(corners, indices, scale, f.dir, Mul(f.pos, I100))
    ensures MeshUVs(fs + [f]) == MeshUVs(fs) + QuadUVs
    ensures MeshTriangles(fs + [f], base) == MeshTriangles(fs, base) + QuadIndices(base + 4 * |fs|)
  {
    assert (fs + [f])[..|fs|] == fs;
  }

  /** The vertex buffer of a concatenation is the concatenation of the two parts' vertex buffers. */
  lemma {:induction false} MeshVerticesAppend(corners: seq<Vec>, indices: seq<int>, scale: int, a: seq<Face>, b: seq<Face>)
    requires TablesValid(corners, indices)
    ensures MeshVertices(corners, indices, scale, a + b) ==
              MeshVertices(corners, indices, scale, a) + MeshVertices(corners, indices, scale, b)
    decreases |b|
  {
    if b == [] {
      assert a + b == a;
    } else {
      var init, f := b[..|b| - 1], b[|b| - 1];
      assert a + b == (a + init) + [f];
      MeshVerticesAppend(corners, indices, scale, a, init);
      MeshSnoc(corners, indices, scale, a + init, f, 0);
    }
  }

  /** The UV buffer of a concatenation is the concatenation of the two parts' UV buffers. */
  lemma {:induction false} MeshUVsAppend(a: seq<Face>, b: seq<Face>)
    ensures MeshUVs(a + b) == MeshUVs(a) + MeshUVs(b)
    decreases |b|
  {
    if b == [] {
      assert a + b == a;
    } else {
      var init, f := b[..|b| - 1], b[|b| - 1];
      assert a + b == (a + init) + [f];
      assert (a + b)[..|a + b| - 1] == a + init;
      MeshUVsAppend(a, init);
    }
  }

  /**
   * The index buffer of a concatenation is the first part's indices followed
   * by the second part's, based past the first part's vertices.
   */
  lemma {:induction false} MeshTrianglesAppend(a: seq<Face>, b: seq<Face>, base: int)
    ensures MeshTriangles(a + b, base) == MeshTriangles(a, base) + MeshTriangles(b, base + 4 * |a|)
    decreases |b|
  {
    if b == [] {
      assert a + b == a;
    } else {
      var init, f := b[..|b| - 1], b[|b| - 1];
      assert a + b == (a + init) + [f];
      assert (a + b)[..|a + b| - 1] == a + init;
      MeshTrianglesAppend(a, init, base);
    }
  }

  /**
   * Face k of a sequence owns vertices [4k, 4k + 4) and UVs [4k, 4k + 4), and
   * its two triangles are indices [6k, 6k + 6), which name exactly those four
   * vertices (offset by `base`).
   */
  lemma {:induction false} MeshFaceAt(corners: seq<Vec>, indices: seq<int>, scale: int, fs: seq<Face>, base: int, k: int)
    requires TablesValid(corners, indices)
    requires 0 <= k < |fs|
    ensures MeshVertices(corners, indices, scale, fs)[4 * k .. 4 * k + 4] ==
              FaceVertices(corners, indices, scale, fs[k].dir, Mul(fs[k].pos, I100))
    ensures MeshUVs(fs)[4 * k .. 4 * k + 4] == QuadUVs
    ensures MeshTriangles(fs, base)[6 * k .. 6 * k + 6] == QuadIndices(base + 4 * k)
    decreases |fs|
  {
    var init := fs[..|fs| - 1];
    if k < |fs| - 1 {
      MeshFaceAt(corners, indices, scale, init, base, k);
      assert init[k] == fs[k];
      var vs := MeshVertices(corners, indices, scale, init);
      var last := fs[|fs| - 1];
      assert MeshVertices(corners, indices, scale, fs)[4 * k .. 4 * k + 4] == vs[4 * k .. 4 * k + 4] by {
        assert MeshVertices(corners, indices, scale, fs) ==
                 vs + FaceVertices(corners, indices, scale, last.dir, Mul(last.pos, I100));
      }
      assert MeshUVs(fs)[4 * k .. 4 * k + 4] == MeshUVs(init)[4 * k .. 4 * k + 4] by {
        assert MeshUVs(fs) == MeshUVs(init) + QuadUVs;
      }
      assert MeshTriangles(fs, base)[6 * k .. 6 * k + 6] == MeshTriangles(init, base)[6 * k .. 6 * k + 6] by {
        assert MeshTriangles(fs, base) == MeshTriangles(init, base) + QuadIndices(base + 4 * (|fs| - 1));
      }
    }
  }

  /** The four mesh buffers of a chunk at one moment: vertices, UVs, triangle indices and the vertex count. */
  datatype Buffers = Buffers(vertices: seq<Vec>, uvs: seq<UV>, triangles: seq<int>, count: int)

  /**
   * Buffers that describe whole quads: one UV per vertex, as many vertices as
   * the count, a multiple of 4, six indices per quad, and every index naming
   * an existing vertex.
   */
  predicate WellFormed(b: Buffers)
  {
    |b.vertices| == b.count && |b.uvs| == b.count && b.count % 4 == 0 &&
    |b.triangles| == 6 * (b.count / 4) &&
    forall k :: 0 <= k < |b.triangles| ==> 0 <= b.triangles[k] < b.count
  }

  /**
   * Buffers s hold the buffers s0 followed by the geometry of faces fs, the
   * faces' indices based at the vertex count of s0.
   */
  predicate Appended(corners: seq<Vec>, indices: seq<int>, scale: int, s0: Buffers, fs: seq<Face>, s: Buffers)
    requires TablesValid(corners, indices)
  {
    s.vertices == s0.vertices + MeshVertices(corners, indices, scale, fs) &&
    s.uvs == s0.uvs + MeshUVs(fs) &&
    s.triangles == s0.triangles + MeshTriangles(fs, s0.count) &&
    s.count == s0.count + 4 * |fs|
  }

  /** Buffers hold themselves followed by the geometry of no faces. */
  lemma AppendedNothing(corners: seq<Vec>, indices: seq<int>, scale: int, s: Buffers)
    requires TablesValid(corners, indices)
    ensures Appended(corners, indices, scale, s, [], s)
  {
    assert s.vertices + [] == s.vertices && s.uvs + [] == s.uvs && s.triangles + [] == s.triangles;
  }

  /**
   * Buffers holding s0 and the geometry of fs, grown by one face's vertices,
   * the quad UVs and the quad's indices based at their vertex count, hold s0
   * and the geometry of fs followed by that face.
   */
  lemma AppendedSnoc(corners: seq<Vec>, indices: seq<int>, scale: int, s0: Buffers, fs: seq<Face>, f: Face, s: Buffers, s': Buffers)
    requires TablesValid(corners, indices)
    requires Appended(corners, indices, scale, s0, fs, s)
    requires s'.vertices == s.vertices + FaceVertices(corners, indices, scale, f.dir, Mul(f.pos, I100))
    requires s'.uvs == s.uvs + QuadUVs
    requires s'.triangles == s.triangles + QuadIndices(s.count)
    requires s'.count == s.count + 4
    ensures Appended(corners, indices, scale, s0, fs + [f], s')
  {
    MeshSnoc(corners, indices, scale, fs, f, s0.count);
  }

  /** Well-formed buffers that gain the geometry of any face sequence stay well-formed. */
  lemma AppendedWellFormed(corners: seq<Vec>, indices: seq<int>, scale: int, s0: Buffers, fs: seq<Face>, s: Buffers)
    requires TablesValid(corners, indices)
    requires WellFormed(s0) && Appended(corners, indices, scale, s0, fs, s)
    ensures WellFormed(s)
  {
    MeshTrianglesRange(fs, s0.count);
    assert 6 * ((s0.count + 4 * |fs|) / 4) == 6 * (s0.count / 4) + 6 * |fs|;
  }
}
