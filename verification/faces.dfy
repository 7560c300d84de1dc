/** The face-list utilities of MeshUtils: turning a triangulator's index list
    into JavaFX's interleaved (vertexIndex, texCoordIndex) face array, and
    flipping the winding of every triangle of such an array.

    A face array holds six ints per triangle: three pairs, each pair a vertex
    index followed by a texture-coordinate index. */
module Faces {

  /** True iff x fits in a Java `int`. */
  predicate IsInt32(x: int) {
    -0x8000_0000 <= x < 0x8000_0000
  }

  /** Java's 32-bit two's-complement reduction of an exact integer sum. */
  function Wrap32(x: int): (r: int)
    ensures IsInt32(r)
    ensures (r - x) % 0x1_0000_0000 == 0
    ensures IsInt32(x) ==> r == x
  {
    (x + 0x8000_0000) % 0x1_0000_0000 - 0x8000_0000
  }

  /** Every (vertex, texCoord) pair of `faces` names a vertex in [lo, hi)
      and the single placeholder texture coordinate 0. */
  predicate WellIndexed(faces: seq<int>, lo: int, hi: int) {
    && |faces| % 2 == 0
    && forall k :: 0 <= k < |faces| / 2 ==> lo <= faces[2 * k] < hi && faces[2 * k + 1] == 0
  }

  /** The face array of a single triangle (v0, v1, v2), all with texture index 0. */
  function Tri(v0: int, v1: int, v2: int): seq<int> {
    [v0, 0, v1, 0, v2, 0]
  }

  /** The vertex indices of one triangle, in drawing order. */
  datatype Triangle = Triangle(v0: int, v1: int, v2: int)

  /** The vertex indices of triangle g of a face array. */
  function TriangleAt(faces: seq<int>, g: nat): Triangle
    requires 6 * g + 6 <= |faces|
  {
    Triangle(faces[6 * g], faces[6 * g + 2], faces[6 * g + 4])
  }

  /** The same triangle with its winding reversed by swapping its last two corners. */
  function Flip(t: Triangle): Triangle {
    Triangle(t.v0, t.v2, t.v1)
  }

  /** The same triangle with its corners listed back to front. */
  function Reversed(t: Triangle): Triangle {
    Triangle(t.v2, t.v1, t.v0)
  }

  /** True iff s and t list the same corners in the same cyclic order, so
      that they have the same face normal. */
  predicate SameWinding(s: Triangle, t: Triangle) {
    t == s || t == Triangle(s.v1, s.v2, s.v0) || t == Triangle(s.v2, s.v0, s.v1)
  }

  /** Listing a triangle back to front winds it the way Flip does. */
  lemma ReversedIsFlipped(t: Triangle)
    ensures SameWinding(Flip(t), Reversed(t))
  {
  }

  /** MeshUtils.buildFaces: pair every index with texture index 0 and shift
      it by `vertexOffset`, the addition being Java `int` arithmetic.
      Slot-level facts: BuildFacesSlots. */
  function BuildFaces(vertices: seq<int>, vertexOffset: int): (faces: seq<int>)
    ensures |faces| == 2 * |vertices|
  {
    if |vertices| == 0 then []
    else [Wrap32(vertices[0] + vertexOffset), 0] + BuildFaces(vertices[1..], vertexOffset)
  }

  /** Pair k of a face array is (v, 0). */
  predicate PairIs(faces: seq<int>, k: nat, v: int)
    requires 2 * k + 2 <= |faces|
  {
    faces[2 * k] == v && faces[2 * k + 1] == 0
  }

  /** Index k of the list becomes pair k of buildFaces: vertex slot
      vertices[k] + vertexOffset (wrapped to an int), texture slot 0. */
  lemma {:induction false} BuildFacesSlots(vertices: seq<int>, vertexOffset: int)
    ensures forall k :: 0 <= k < |vertices| ==>
              PairIs(BuildFaces(vertices, vertexOffset), k, Wrap32(vertices[k] + vertexOffset))
    decreases |vertices|
  {
    if |vertices| > 0 {
      var rest := vertices[1..];
      BuildFacesSlots(rest, vertexOffset);
      var faces := BuildFaces(vertices, vertexOffset);
      var tail := BuildFaces(rest, vertexOffset);
      assert faces == [Wrap32(vertices[0] + vertexOffset), 0] + tail;
      forall k | 0 <= k < |vertices|
        ensures PairIs(faces, k, Wrap32(vertices[k] + vertexOffset))
      {
        if k > 0 {
          assert PairIs(tail, k - 1, Wrap32(rest[k - 1] + vertexOffset));
        }
      }
    }
  }

  /** The vertex slots of BuildFaces are exactly the shifted indices when no
      Java `int` overflow happens, so indices in [0, m) land in
      [vertexOffset, vertexOffset + m). */
  lemma BuildFacesInRange(vertices: seq<int>, vertexOffset: int, m: int)
    requires 0 <= vertexOffset && vertexOffset + m <= 0x8000_0000
    requires forall k :: 0 <= k < |vertices| ==> 0 <= vertices[k] < m
    ensures WellIndexed(BuildFaces(vertices, vertexOffset), vertexOffset, vertexOffset + m)
    ensures forall k :: 0 <= k < |vertices| ==>
              BuildFaces(vertices, vertexOffset)[2 * k] == vertices[k] + vertexOffset
  {
    var faces := BuildFaces(vertices, vertexOffset);
    BuildFacesSlots(vertices, vertexOffset);
    forall k | 0 <= k < |vertices|
      ensures faces[2 * k] == vertices[k] + vertexOffset && faces[2 * k + 1] == 0
    {
      assert PairIs(faces, k, Wrap32(vertices[k] + vertexOffset));
    }
  }

  /** MeshUtils.buildBoundFaces: triangulate `coords` with the external
      Earcut primitive (x, y, z per point) and turn its index list into faces. */
  function BuildBoundFaces(earcut: seq<real> -> seq<int>, coords: seq<real>, vertexOffset: int): (faces: seq<int>)
    ensures |faces| == 2 * |earcut(coords)|
    ensures forall k :: 0 <= k < |earcut(coords)| ==>
              PairIs(faces, k, Wrap32(earcut(coords)[k] + vertexOffset))
  {
    BuildFacesSlots(earcut(coords), vertexOffset);
    BuildFaces(earcut(coords), vertexOffset)
  }

  /** If Earcut only names points of `coords` (indices in [0, m)), every face
      of buildBoundFaces names a vertex in [vertexOffset, vertexOffset + m). */
  lemma BoundFacesInRange(earcut: seq<real> -> seq<int>, coords: seq<real>, vertexOffset: int, m: int)
    requires 0 <= vertexOffset && vertexOffset + m <= 0x8000_0000
    requires forall k :: 0 <= k < |earcut(coords)| ==> 0 <= earcut(coords)[k] < m
    ensures WellIndexed(BuildBoundFaces(earcut, coords, vertexOffset), vertexOffset, vertexOffset + m)
  {
    BuildFacesInRange(earcut(coords), vertexOffset, m);
  }

  /** One triangle's six ints with the second and third pairs swapped. */
  function SwapPairs(g: seq<int>): seq<int>
    requires |g| == 6
  {
    [g[0], g[1], g[4], g[5], g[2], g[3]]
  }

  /** A run of `n` zeros, as Java fills a fresh `int[]`. */
  function Zeros(n: nat): (z: seq<int>)
    ensures |z| == n && forall i :: 0 <= i < n ==> z[i] == 0
  {
    seq(n, _ => 0)
  }

  /** MeshUtils.revertFaces: every complete group of six ints has its second
      and third (vertex, texCoord) pairs swapped; a trailing partial group is
      never written and stays 0. Slot-level facts: RevertFacesSlots. */
  function RevertFaces(faces: seq<int>): (r: seq<int>)
    ensures |r| == |faces|
    decreases |faces|
  {
    if |faces| < 6 then Zeros(|faces|)
    else SwapPairs(faces[..6]) + RevertFaces(faces[6..])
  }

  /** The six ints of r starting at i are those of f starting at i with the
      second and third pairs exchanged. */
  predicate PairsSwappedAt(r: seq<int>, f: seq<int>, i: nat)
    requires i + 6 <= |r| && i + 6 <= |f|
  {
    && r[i] == f[i] && r[i + 1] == f[i + 1]
    && r[i + 2] == f[i + 4] && r[i + 3] == f[i + 5]
    && r[i + 4] == f[i + 2] && r[i + 5] == f[i + 3]
  }

  /** In every whole triangle revertFaces keeps the first pair and exchanges
      the other two; every int of a trailing partial group is 0. */
  lemma {:induction false} RevertFacesSlots(faces: seq<int>)
    ensures forall g :: 0 <= g < |faces| / 6 ==> PairsSwappedAt(RevertFaces(faces), faces, 6 * g)
    ensures forall i :: |faces| - |faces| % 6 <= i < |faces| ==> RevertFaces(faces)[i] == 0
    decreases |faces|
  {
    var r := RevertFaces(faces);
    if |faces| >= 6 {
      var rest := faces[6..];
      RevertFacesSlots(rest);
      var rr := RevertFaces(rest);
      assert r == SwapPairs(faces[..6]) + rr;
      forall g | 0 <= g < |faces| / 6
        ensures PairsSwappedAt(r, faces, 6 * g)
      {
        if g > 0 {
          assert 0 <= g - 1 < |rest| / 6;
          assert PairsSwappedAt(rr, rest, 6 * (g - 1));
        }
      }
      forall i | |faces| - |faces| % 6 <= i < |faces|
        ensures r[i] == 0
      {
        assert |rest| - |rest| % 6 <= i - 6;
        assert r[i] == rr[i - 6];
      }
    }
  }

  /** RevertFaces works triangle by triangle, so it distributes over a
      concatenation whose first part holds whole triangles. */
  lemma {:induction false} RevertFacesAppend(f: seq<int>, h: seq<int>)
    requires |f| % 6 == 0
    ensures RevertFaces(f + h) == RevertFaces(f) + RevertFaces(h)
    decreases |f|
  {
    if |f| == 0 {
      assert f + h == h;
    } else {
      assert (f + h)[..6] == f[..6];
      assert (f + h)[6..] == f[6..] + h;
      RevertFacesAppend(f[6..], h);
    }
  }

  /** revertFaces written as the Java loop: stride 6 over a zero-filled array. */
  method RevertFacesLoop(faces: seq<int>) returns (r: seq<int>)
    ensures r == RevertFaces(faces)
  {
    r := Zeros(|faces|);
    var i := 0;
    while i < |faces| - 5
      invariant 0 <= i <= |faces| && i % 6 == 0
      invariant |r| == |faces|
      invariant r[..i] == RevertFaces(faces[..i])
      invariant r[i..] == Zeros(|faces| - i)
    {
      var group := [faces[i + 0], faces[i + 1], faces[i + 4], faces[i + 5], faces[i + 2], faces[i + 3]];
      r := r[..i] + group + r[i + 6..];
      assert faces[..i + 6] == faces[..i] + faces[i..i + 6];
      RevertFacesAppend(faces[..i], faces[i..i + 6]);
      assert RevertFaces(faces[i..i + 6]) == SwapPairs(faces[i..i + 6]) + RevertFaces([]);
      assert r[..i + 6] == r[..i] + group;
      i := i + 6;
    }
    assert faces == faces[..i] + faces[i..];
    RevertFacesAppend(faces[..i], faces[i..]);
    assert r == r[..i] + r[i..];
  }

  /** Flipping twice restores every whole triangle; a trailing partial group
      comes back as zeros. */
  lemma {:induction false} RevertFacesTwice(faces: seq<int>)
    ensures RevertFaces(RevertFaces(faces)) == faces[..|faces| - |faces| % 6] + Zeros(|faces| % 6)
    decreases |faces|
  {
    if |faces| < 6 {
      assert RevertFaces(faces) == Zeros(|faces|);
      assert faces[..|faces| - |faces| % 6] == [];
    } else {
      var rest := faces[6..];
      RevertTwiceHead(faces);
      RevertFacesTwice(rest);
      WholeGroupsHead(faces);
    }
  }

  /** Flipping twice restores the first group and leaves the rest to the
      rest. */
  lemma RevertTwiceHead(faces: seq<int>)
    requires |faces| >= 6
    ensures RevertFaces(RevertFaces(faces)) == faces[..6] + RevertFaces(RevertFaces(faces[6..]))
  {
    var head := SwapPairs(faces[..6]);
    var rr := RevertFaces(faces[6..]);
    assert RevertFaces(faces) == head + rr;
    RevertFacesAppend(head, rr);
    RevertOneGroup(head);
    SwapPairsTwice(faces[..6]);
  }

  /** On exactly one group RevertFaces is SwapPairs. */
  lemma RevertOneGroup(g: seq<int>)
    requires |g| == 6
    ensures RevertFaces(g) == SwapPairs(g)
  {
    assert g[..6] == g;
    assert RevertFaces(g[6..]) == [];
  }

  /** Swapping the pairs of a group twice gives it back. */
  lemma SwapPairsTwice(g: seq<int>)
    requires |g| == 6
    ensures SwapPairs(SwapPairs(g)) == g
  {
  }

  /** The whole groups of an array are its first group followed by the
      whole groups of the rest; the leftover count is the same. */
  lemma WholeGroupsHead(faces: seq<int>)
    requires |faces| >= 6
    ensures var rest := faces[6..];
      && |rest| % 6 == |faces| % 6
      && faces[..|faces| - |faces| % 6] == faces[..6] + rest[..|rest| - |rest| % 6]
  {
    var rest := faces[6..];
    assert |rest| % 6 == |faces| % 6;
    assert rest[..|rest| - |rest| % 6] == faces[6..|faces| - |faces| % 6];
  }

  /** revertFaces is an involution on arrays of whole triangles. */
  lemma RevertFacesInvolution(faces: seq<int>)
    requires |faces| % 6 == 0
    ensures RevertFaces(RevertFaces(faces)) == faces
  {
    RevertFacesTwice(faces);
    assert faces[..|faces| - |faces| % 6] == faces;
  }

  /** On whole triangles revertFaces flips the winding of each triangle and
      keeps every vertex and texture index it was given. */
  lemma RevertFacesFlips(faces: seq<int>, lo: int, hi: int)
    requires |faces| % 6 == 0
    ensures forall g :: 0 <= g < |faces| / 6 ==>
              TriangleAt(RevertFaces(faces), g) == Flip(TriangleAt(faces, g))
    ensures WellIndexed(faces, lo, hi) ==> WellIndexed(RevertFaces(faces), lo, hi)
  {
    var r := RevertFaces(faces);
    RevertFacesSlots(faces);
    forall g | 0 <= g < |faces| / 6
      ensures TriangleAt(r, g) == Flip(TriangleAt(faces, g))
    {
      assert PairsSwappedAt(r, faces, 6 * g);
    }
    if WellIndexed(faces, lo, hi) {
      RevertFacesIndexed(faces, r, lo, hi);
    }
  }

  /** Swapping pairs inside whole triangles keeps a face array well indexed. */
  lemma RevertFacesIndexed(faces: seq<int>, r: seq<int>, lo: int, hi: int)
    requires |faces| % 6 == 0 && |r| == |faces| && WellIndexed(faces, lo, hi)
    requires forall g :: 0 <= g < |faces| / 6 ==> PairsSwappedAt(r, faces, 6 * g)
    ensures WellIndexed(r, lo, hi)
  {
    forall k | 0 <= k < |r| / 2
      ensures lo <= r[2 * k] < hi && r[2 * k + 1] == 0
    {
      var g := k / 3;
      assert 0 <= g < |faces| / 6 && 3 * g <= k < 3 * g + 3;
      SwappedPairIndexed(r, faces, lo, hi, g, k - 3 * g);
    }
  }

  lemma SwappedPairIndexed(r: seq<int>, faces: seq<int>, lo: int, hi: int, g: nat, j: nat)
    requires 6 * g + 6 <= |r| == |faces| && j < 3
    requires PairsSwappedAt(r, faces, 6 * g) && WellIndexed(faces, lo, hi)
    ensures lo <= r[6 * g + 2 * j] < hi && r[6 * g + 2 * j + 1] == 0
  {
    var src := if j == 0 then 3 * g else if j == 1 then 3 * g + 2 else 3 * g + 1;
    assert r[6 * g + 2 * j] == faces[2 * src] && r[6 * g + 2 * j + 1] == faces[2 * src + 1];
  }

  // ---------------------------------------------------------------------
  // Face arrays assembled triangle by triangle, as PolyLine3D does.
  // ---------------------------------------------------------------------

  /** True iff all three corners of t lie in [lo, hi). */
  predicate InRange(t: Triangle, lo: int, hi: int) {
    lo <= t.v0 < hi && lo <= t.v1 < hi && lo <= t.v2 < hi
  }

  /** The face array listing the triangles ts in order, each corner with
      texture index 0. */
  function FacesOf(ts: seq<Triangle>): (faces: seq<int>)
    ensures |faces| == 6 * |ts|
    decreases |ts|
  {
    if |ts| == 0 then []
    else
      var t := ts[|ts| - 1];
      FacesOf(ts[..|ts| - 1]) + Tri(t.v0, t.v1, t.v2)
  }

  /** Appending one triangle appends its six ints. */
  lemma FacesOfSnoc(ts: seq<Triangle>, t: Triangle)
    ensures FacesOf(ts + [t]) == FacesOf(ts) + Tri(t.v0, t.v1, t.v2)
  {
    assert (ts + [t])[..|ts|] == ts;
  }

  lemma {:induction false} FacesOfAppend(a: seq<Triangle>, b: seq<Triangle>)
    ensures FacesOf(a + b) == FacesOf(a) + FacesOf(b)
    decreases |b|
  {
    if |b| == 0 {
      assert a + b == a;
    } else {
      var b0, t := b[..|b| - 1], b[|b| - 1];
      assert b == b0 + [t];
      assert a + b == (a + b0) + [t];
      FacesOfAppend(a, b0);
      FacesOfSnoc(a + b0, t);
      FacesOfSnoc(b0, t);
    }
  }

  /** Triangle g of the array is ts[g], and every texture slot is 0. */
  lemma {:induction false} FacesOfAt(ts: seq<Triangle>)
    ensures forall g :: 0 <= g < |ts| ==> TriangleAt(FacesOf(ts), g) == ts[g]
    ensures forall k :: 0 <= k < 3 * |ts| ==> FacesOf(ts)[2 * k + 1] == 0
    decreases |ts|
  {
    if |ts| > 0 {
      var n := |ts| - 1;
      var pre := ts[..n];
      var f := FacesOf(ts);
      FacesOfAt(pre);
      assert f == FacesOf(pre) + Tri(ts[n].v0, ts[n].v1, ts[n].v2);
      forall g | 0 <= g < |ts|
        ensures TriangleAt(f, g) == ts[g]
      {
        if g < n {
          assert TriangleAt(FacesOf(pre), g) == pre[g];
        }
      }
      forall k | 0 <= k < 3 * |ts|
        ensures f[2 * k + 1] == 0
      {
        if k < 3 * n {
          assert f[2 * k + 1] == FacesOf(pre)[2 * k + 1];
        }
      }
    }
  }

  /** Triangles whose corners lie in [lo, hi) give a face array indexing
      only that range. */
  lemma FacesOfInRange(ts: seq<Triangle>, lo: int, hi: int)
    requires forall g :: 0 <= g < |ts| ==> InRange(ts[g], lo, hi)
    ensures WellIndexed(FacesOf(ts), lo, hi)
  {
    FacesOfAt(ts);
    TrianglesInRange(FacesOf(ts), ts, lo, hi);
  }

  /** A face array laid out as the triangles ts, with texture index 0
      throughout, indexes only the range the triangles use. */
  lemma TrianglesInRange(f: seq<int>, ts: seq<Triangle>, lo: int, hi: int)
    requires |f| == 6 * |ts|
    requires forall g :: 0 <= g < |ts| ==> TriangleAt(f, g) == ts[g]
    requires forall k :: 0 <= k < 3 * |ts| ==> f[2 * k + 1] == 0
    requires forall g :: 0 <= g < |ts| ==> InRange(ts[g], lo, hi)
    ensures WellIndexed(f, lo, hi)
  {
    assert |f| / 2 == 3 * |ts| && |f| % 2 == 0;
    forall k | 0 <= k < |f| / 2
      ensures lo <= f[2 * k] < hi && f[2 * k + 1] == 0
    {
      var g := k / 3;
      assert 3 * g <= k < 3 * g + 3;
      CornerInRange(f, ts[g], g, k, lo, hi);
    }
  }

  /** Slot k of a face array is one corner of triangle g when 3g <= k < 3g + 3. */
  lemma CornerInRange(f: seq<int>, t: Triangle, g: nat, k: nat, lo: int, hi: int)
    requires 3 * g <= k < 3 * g + 3 && 6 * g + 6 <= |f|
    requires TriangleAt(f, g) == t && InRange(t, lo, hi)
    ensures lo <= f[2 * k] < hi
  {
    assert 2 * k == 6 * g || 2 * k == 6 * g + 2 || 2 * k == 6 * g + 4;
  }

  /** Two face arrays over the same vertex range concatenate to one. */
  lemma WellIndexedAppend(a: seq<int>, b: seq<int>, lo: int, hi: int)
    requires WellIndexed(a, lo, hi) && WellIndexed(b, lo, hi)
    ensures WellIndexed(a + b, lo, hi)
  {
    var f := a + b;
    forall k | 0 <= k < |f| / 2
      ensures lo <= f[2 * k] < hi && f[2 * k + 1] == 0
    {
      if k >= |a| / 2 {
        var j := k - |a| / 2;
        assert f[2 * k] == b[2 * j] && f[2 * k + 1] == b[2 * j + 1];
      }
    }
  }

  /** Triangles of a concatenation come from the part they fall in. */
  lemma TriangleAtAppend(a: seq<int>, b: seq<int>, g: nat)
    requires |a| % 6 == 0 && 6 * g + 6 <= |a| + |b|
    ensures g < |a| / 6 ==> TriangleAt(a + b, g) == TriangleAt(a, g)
    ensures g >= |a| / 6 ==> 6 * (g - |a| / 6) + 6 <= |b|
    ensures g >= |a| / 6 ==> TriangleAt(a + b, g) == TriangleAt(b, g - |a| / 6)
  {
  }
}
