/** PolyLine3D: a polyline drawn as a triangle mesh in one of three styles
    (a ribbon raised along z, a ribbon centred on the line, a triangular
    tube), the builders that fill the mesh for each style, and the state
    changes that rebuild it. */
module PolyLine {
  import opened Wrappers
  import Faces
  import Offset

  /** A point of the polyline. */
  datatype Point3D = Point3D(x: real, y: real, z: real)

  /** The mesh style chosen at construction. */
  datatype LineType = Ribbon | CenterRibbon | Triangle

  /** The four arrays of the triangle mesh the builders write: vertex
      coordinates (x, y, z per vertex), texture coordinates, faces (vertex
      and texture index per corner) and one smoothing group per triangle. */
  datatype Mesh = Mesh(points: seq<real>, texCoords: seq<real>, faces: seq<int>, smoothingGroups: seq<int>)

  /** A freshly created mesh. */
  const EmptyMesh: Mesh := Mesh([], [], [], [])

  const DEFAULT_WIDTH: real := 1.0

  /** The one runtime failure of the builders: iterating a null point list. */
  datatype Error = NullPointer

  /** The state of a PolyLine3D: its point list (`None` for null), its width
      and the mesh it shows. */
  datatype PolyLine3D = PolyLine3D(points: Option<seq<Point3D>>, width: real, mesh: Mesh)

  /** Vertex k of a coordinate buffer. */
  function PointOf(c: seq<real>, k: nat): Point3D
    requires 3 * k + 2 < |c|
  {
    Point3D(c[3 * k], c[3 * k + 1], c[3 * k + 2])
  }

  /** Two coordinate buffers holding the same vertices are equal. */
  lemma SameVertices(c1: seq<real>, c2: seq<real>)
    requires |c1| == |c2| && |c1| % 3 == 0
    requires forall k :: 0 <= k < |c1| / 3 ==> PointOf(c1, k) == PointOf(c2, k)
    ensures c1 == c2
  {
    forall k | 0 <= k < |c1| / 3
      ensures c1[3 * k] == c2[3 * k] && c1[3 * k + 1] == c2[3 * k + 1] && c1[3 * k + 2] == c2[3 * k + 2]
    {
      assert PointOf(c1, k) == PointOf(c2, k);
    }
    Offset.SamePoints(c1, c2);
  }

  // ---------------------------------------------------------------------
  // buildCenterRibbon
  // ---------------------------------------------------------------------

  /** Vertex q of the outline: the points forward, then backward. */
  function OutlinePoint(pts: seq<Point3D>, q: nat): Point3D
    requires q < 2 * |pts|
  {
    if q < |pts| then pts[q] else pts[2 * |pts| - 1 - q]
  }

  /** The coordinates of the first q vertices of the outline. */
  function OutlineCoords(pts: seq<Point3D>, q: nat): (c: seq<real>)
    requires q <= 2 * |pts|
    ensures |c| == 3 * q
    decreases q
  {
    if q == 0 then []
    else
      var p := OutlinePoint(pts, q - 1);
      OutlineCoords(pts, q - 1) + [p.x, p.y, p.z]
  }

  lemma {:induction false} OutlineCoordsAt(pts: seq<Point3D>, q: nat, j: nat)
    requires q <= 2 * |pts| && j < q
    ensures PointOf(OutlineCoords(pts, q), j) == OutlinePoint(pts, j)
    decreases q
  {
    if j < q - 1 {
      OutlineCoordsAt(pts, q - 1, j);
      var p := OutlinePoint(pts, q - 1);
      var c := OutlineCoords(pts, q - 1);
      assert OutlineCoords(pts, q) == c + [p.x, p.y, p.z];
      assert PointOf(OutlineCoords(pts, q), j) == PointOf(c, j);
    }
  }

  /** The closed outline buildCenterRibbon offsets: the n points forward,
      then the same points backward, 2n vertices in all. */
  function Boundary(pts: seq<Point3D>): (c: seq<real>)
    ensures IsOutline(pts, c)
  {
    BoundaryLaidOut(pts);
    OutlineCoords(pts, 2 * |pts|)
  }

  lemma BoundaryLaidOut(pts: seq<Point3D>)
    ensures IsOutline(pts, OutlineCoords(pts, 2 * |pts|))
  {
    var n := |pts|;
    var c := OutlineCoords(pts, 2 * n);
    forall k | 0 <= k < n
      ensures OutlineAt(pts, c, k)
    {
      OutlineCoordsAt(pts, 2 * n, k);
      OutlineCoordsAt(pts, 2 * n, 2 * n - 1 - k);
    }
  }

  /** Point k sits at vertex k of c and again at vertex 2n-1-k. */
  predicate OutlineAt(pts: seq<Point3D>, c: seq<real>, k: nat)
    requires k < |pts| && |c| == 6 * |pts|
  {
    PointOf(c, k) == pts[k] && PointOf(c, 2 * |pts| - 1 - k) == pts[k]
  }

  /** True iff c holds the points forward then backward. */
  predicate IsOutline(pts: seq<Point3D>, c: seq<real>) {
    && |c| == 6 * |pts|
    && forall k :: 0 <= k < |pts| ==> OutlineAt(pts, c, k)
  }

  /** Only one buffer holds the points forward then backward. */
  lemma OutlineUnique(pts: seq<Point3D>, c: seq<real>, b: seq<real>)
    requires IsOutline(pts, c) && IsOutline(pts, b)
    ensures c == b
  {
    forall q | 0 <= q < 2 * |pts|
      ensures PointOf(c, q) == PointOf(b, q)
    {
      OutlineVertex(pts, c, q);
      OutlineVertex(pts, b, q);
    }
    SameVertices(c, b);
  }

  /** Vertex q of an outline buffer is vertex q of the outline. */
  lemma OutlineVertex(pts: seq<Point3D>, c: seq<real>, q: nat)
    requires IsOutline(pts, c) && q < 2 * |pts|
    ensures PointOf(c, q) == OutlinePoint(pts, q)
  {
    if q >= |pts| {
      assert OutlineAt(pts, c, 2 * |pts| - 1 - q);
    } else {
      assert OutlineAt(pts, c, q);
    }
  }

  /** The three stores `coords[index++] = p.x; ... p.y; ... p.z` at
      index 3k. */
  function Store(c: seq<real>, k: nat, p: Point3D): (r: seq<real>)
    requires 3 * k + 2 < |c|
    ensures |r| == |c| && PointOf(r, k) == p
    ensures forall j :: 0 <= j && 3 * j + 2 < |c| && j != k ==> PointOf(r, j) == PointOf(c, j)
  {
    c[3 * k := p.x][3 * k + 1 := p.y][3 * k + 2 := p.z]
  }

  /** The two loops of buildCenterRibbon filling a buffer of 6n floats. */
  method BoundaryCoords(pts: seq<Point3D>) returns (coords: seq<real>)
    ensures coords == Boundary(pts)
  {
    var size := |pts|;
    coords := seq(size * 6, _ => 0.0);
    // q is the Java running index divided by 3: the vertex written next
    var q := 0;
    var i := 0;
    while i < size
      invariant 0 <= i <= size && q == i && |coords| == 6 * size
      invariant forall k :: 0 <= k < i ==> PointOf(coords, k) == pts[k]
    {
      coords := Store(coords, q, pts[i]);
      q := q + 1;
      i := i + 1;
    }
    i := size - 1;
    while i > -1
      invariant -1 <= i < size && q == 2 * size - 1 - i && |coords| == 6 * size
      invariant forall k :: 0 <= k < size ==> PointOf(coords, k) == pts[k]
      invariant forall k :: i < k < size ==> PointOf(coords, 2 * size - 1 - k) == pts[k]
    {
      coords := Store(coords, q, pts[i]);
      q := q + 1;
      i := i - 1;
    }
    FilledBoundary(pts, coords);
  }

  /** A buffer holding the points forward in its first half and backward
      in its second is the boundary. */
  lemma FilledBoundary(pts: seq<Point3D>, c: seq<real>)
    requires |c| == 6 * |pts|
    requires forall k :: 0 <= k < |pts| ==> PointOf(c, k) == pts[k]
    requires forall k :: 0 <= k < |pts| ==> PointOf(c, 2 * |pts| - 1 - k) == pts[k]
    ensures c == Boundary(pts)
  {
    forall k | 0 <= k < |pts|
      ensures OutlineAt(pts, c, k)
    {
    }
    OutlineUnique(pts, c, Boundary(pts));
  }

  /** True iff the triangulator, given c, returns whole triangles whose
      indices all name vertices of c. */
  predicate Triangulates(earcut: seq<real> -> seq<int>, c: seq<real>) {
    && |earcut(c)| % 3 == 0
    && forall k :: 0 <= k < |earcut(c)| ==> 0 <= earcut(c)[k] < |c| / 3
  }

  /** The centre ribbon's triangles: the triangulation of the offset
      outline, then the same triangles with their winding flipped. */
  function TwoSidedFaces(earcut: seq<real> -> seq<int>, coords: seq<real>): (faces: seq<int>)
    ensures |faces| == 4 * |earcut(coords)|
  {
    var front := Faces.BuildBoundFaces(earcut, coords, 0);
    front + Faces.RevertFaces(front)
  }

  /** PolyLine3D.buildCenterRibbon: with a null list or fewer than two
      points the mesh is left as it was; otherwise every array of the mesh
      is replaced: the vertices by the outline offset by half the width
      (open mode), the faces by its triangulation seen from both sides, the
      texture coordinates by a single (0, 0), and the smoothing groups by
      one 0 per triangle. */
  function BuildCenterRibbon(points: Option<seq<Point3D>>, width: real, mesh: Mesh,
                             unit: Offset.Vec2 -> Offset.Vec2,
                             earcut: seq<real> -> seq<int>): (m: Mesh)
    ensures points.None? || |points.value| < 2 ==> m == mesh
    ensures points.Some? && |points.value| >= 2 ==> |m.points| == 6 * |points.value|
    ensures points.Some? && |points.value| >= 2 ==> m.texCoords == [0.0, 0.0]
    ensures points.Some? && |points.value| >= 2 ==> |m.faces| == 4 * |earcut(m.points)|
    ensures points.Some? && |points.value| >= 2 ==> |m.smoothingGroups| == |m.faces| / 6
    ensures points.Some? && |points.value| >= 2 ==>
      forall g :: 0 <= g < |m.smoothingGroups| ==> m.smoothingGroups[g] == 0
  {
    if points.None? || |points.value| < 2 then mesh
    else
      var coords := Offset.Offset(Boundary(points.value), width / 2.0, 1, false, unit);
      var faces := TwoSidedFaces(earcut, coords);
      Mesh(coords, [0.0, 0.0], faces, SmoothingGroups(faces))
  }

  /** A fresh `int[faces.size() / 6]`: smoothing group 0 for every triangle. */
  function SmoothingGroups(faces: seq<int>): (groups: seq<int>)
    ensures |groups| == |faces| / 6
    ensures forall g :: 0 <= g < |groups| ==> groups[g] == 0
  {
    Faces.Zeros(|faces| / 6)
  }

  /** The centre ribbon's vertices are the open-mode offset of the outline
      by half the width, and its first faces list the triangulator's
      indices in order. */
  lemma CenterRibbonLayout(pts: seq<Point3D>, width: real, mesh: Mesh,
                           unit: Offset.Vec2 -> Offset.Vec2, earcut: seq<real> -> seq<int>)
    requires 2 <= |pts|
    ensures var m := BuildCenterRibbon(Some(pts), width, mesh, unit, earcut);
      && Offset.IsOpenOffset(Boundary(pts), m.points, unit, width / 2.0, 1)
      && forall k :: 0 <= k < |earcut(m.points)| ==>
           Faces.PairIs(m.faces, k, Faces.Wrap32(earcut(m.points)[k]))
  {
    var m := BuildCenterRibbon(Some(pts), width, mesh, unit, earcut);
    Offset.OffsetSpec(Boundary(pts), width / 2.0, 1, false, unit);
    var front := Faces.BuildBoundFaces(earcut, m.points, 0);
    assert m.faces == front + Faces.RevertFaces(front);
    forall k | 0 <= k < |earcut(m.points)|
      ensures Faces.PairIs(m.faces, k, Faces.Wrap32(earcut(m.points)[k]))
    {
      assert Faces.PairIs(front, k, Faces.Wrap32(earcut(m.points)[k] + 0));
    }
  }

  /** When the triangulator names only vertices of the outline, every face
      of the centre ribbon does, back faces included. */
  lemma CenterRibbonInRange(pts: seq<Point3D>, width: real, mesh: Mesh,
                            unit: Offset.Vec2 -> Offset.Vec2, earcut: seq<real> -> seq<int>)
    requires 2 <= |pts| && 6 * |pts| < 0x8000_0000
    requires Triangulates(earcut, BuildCenterRibbon(Some(pts), width, mesh, unit, earcut).points)
    ensures Faces.WellIndexed(BuildCenterRibbon(Some(pts), width, mesh, unit, earcut).faces, 0, 2 * |pts|)
  {
    var m := BuildCenterRibbon(Some(pts), width, mesh, unit, earcut);
    TwoSidedInRange(earcut, m.points, 2 * |pts|);
  }

  lemma TwoSidedInRange(earcut: seq<real> -> seq<int>, coords: seq<real>, hi: nat)
    requires Triangulates(earcut, coords) && |coords| / 3 == hi && hi <= 0x8000_0000
    ensures Faces.WellIndexed(TwoSidedFaces(earcut, coords), 0, hi)
  {
    var front := Faces.BuildBoundFaces(earcut, coords, 0);
    Faces.BoundFacesInRange(earcut, coords, 0, hi);
    Faces.RevertFacesFlips(front, 0, hi);
    Faces.WellIndexedAppend(front, Faces.RevertFaces(front), 0, hi);
  }

  /** The second half of the centre ribbon's faces is the first half with
      every triangle's winding flipped, so the ribbon shows from both sides. */
  lemma CenterRibbonBackFaces(pts: seq<Point3D>, width: real, mesh: Mesh,
                              unit: Offset.Vec2 -> Offset.Vec2, earcut: seq<real> -> seq<int>)
    requires 2 <= |pts|
    requires |earcut(BuildCenterRibbon(Some(pts), width, mesh, unit, earcut).points)| % 3 == 0
    ensures var f := BuildCenterRibbon(Some(pts), width, mesh, unit, earcut).faces;
      && |f| % 12 == 0
      && forall g :: 0 <= g < |f| / 12 ==>
           Faces.TriangleAt(f, |f| / 12 + g) == Faces.Flip(Faces.TriangleAt(f, g))
  {
    var m := BuildCenterRibbon(Some(pts), width, mesh, unit, earcut);
    TwoSidedBack(earcut, m.points);
  }

  lemma TwoSidedBack(earcut: seq<real> -> seq<int>, coords: seq<real>)
    requires |earcut(coords)| % 3 == 0
    ensures var f := TwoSidedFaces(earcut, coords);
      && |f| % 12 == 0
      && forall g :: 0 <= g < |f| / 12 ==>
           Faces.TriangleAt(f, |f| / 12 + g) == Faces.Flip(Faces.TriangleAt(f, g))
  {
    var f := TwoSidedFaces(earcut, coords);
    var front := Faces.BuildBoundFaces(earcut, coords, 0);
    var back := Faces.RevertFaces(front);
    assert f == front + back;
    var half := |front| / 6;
    assert |f| / 12 == half;
    Faces.RevertFacesFlips(front, 0, 0);
    forall g | 0 <= g < half
      ensures Faces.TriangleAt(f, half + g) == Faces.Flip(Faces.TriangleAt(f, g))
    {
      Faces.TriangleAtAppend(front, back, g);
      Faces.TriangleAtAppend(front, back, half + g);
    }
  }

  /** With zero width the centre ribbon's vertices are the outline itself. */
  lemma CenterRibbonZeroWidth(pts: seq<Point3D>, mesh: Mesh,
                              unit: Offset.Vec2 -> Offset.Vec2, earcut: seq<real> -> seq<int>)
    requires 2 <= |pts|
    ensures BuildCenterRibbon(Some(pts), 0.0, mesh, unit, earcut).points == Boundary(pts)
  {
    Offset.OffsetZeroWidth(Boundary(pts), 1, false, unit);
  }

  /** The x,y direction from point a to point b. */
  function Step(a: Point3D, b: Point3D): Offset.Vec2 {
    Offset.Vec2(b.x - a.x, b.y - a.y)
  }

  /** p moved a distance t along the left normal (-b, a) of the direction
      d = (a, b), z unchanged; a negative t moves it to the right. */
  function Beside(p: Point3D, d: Offset.Vec2, t: real): Point3D {
    Point3D(p.x - t * d.b, p.y + t * d.a, p.z)
  }

  /** At the last point the ribbon's two vertices straddle the line: one
      half-width to the left of the final segment's direction d, one to the
      right (when that segment has length, and the normalisation maps the
      reversed segment to the reversed direction). Stated for any buffer
      meeting the open-offset rules for the outline, which the centre
      ribbon's vertices do (CenterRibbonLayout). */
  lemma OutlineEndSpans(pts: seq<Point3D>, c: seq<real>, out: seq<real>, t: real, unit: Offset.Vec2 -> Offset.Vec2)
    requires 2 <= |pts|
    requires var e := Step(pts[|pts| - 2], pts[|pts| - 1]);
      !Offset.IsZero(e) && unit(Offset.Neg(e)) == Offset.Neg(unit(e))
    requires |c| == 6 * |pts| && |out| == |c| && IsOutline(pts, c) && Offset.IsOpenOffset(c, out, unit, t, 1)
    ensures var n := |pts|;
      var d, p := unit(Step(pts[n - 2], pts[n - 1])), pts[n - 1];
      && PointOf(out, n - 1) == Beside(p, d, t)
      && PointOf(out, n) == Beside(p, d, -t)
  {
    OpenJointsAtTurn(pts, c, out, t, unit);
    OutlineEndJoints(pts, c, out, t, unit);
  }

  lemma OpenJointsAtTurn(pts: seq<Point3D>, c: seq<real>, out: seq<real>, t: real, unit: Offset.Vec2 -> Offset.Vec2)
    requires 2 <= |pts| && |c| == 6 * |pts| && |out| == |c|
    requires IsOutline(pts, c) && Offset.IsOpenOffset(c, out, unit, t, 1)
    ensures Offset.OpenJointAt(c, out, unit, t, 1, |pts| - 1) && Offset.OpenJointAt(c, out, unit, t, 1, |pts|)
  {
  }

  lemma OutlineEndJoints(pts: seq<Point3D>, c: seq<real>, out: seq<real>, t: real, unit: Offset.Vec2 -> Offset.Vec2)
    requires 2 <= |pts|
    requires var e := Step(pts[|pts| - 2], pts[|pts| - 1]);
      !Offset.IsZero(e) && unit(Offset.Neg(e)) == Offset.Neg(unit(e))
    requires IsOutline(pts, c) && |out| == |c|
    requires Offset.OpenJointAt(c, out, unit, t, 1, |pts| - 1) && Offset.OpenJointAt(c, out, unit, t, 1, |pts|)
    ensures var n := |pts|;
      var d, p := unit(Step(pts[n - 2], pts[n - 1])), pts[n - 1];
      && PointOf(out, n - 1) == Beside(p, d, t)
      && PointOf(out, n) == Beside(p, d, -t)
  {
    var n := |pts|;
    var d := unit(Step(pts[n - 2], pts[n - 1]));
    var z := Offset.Zero;
    OutlineEndTracks(pts, c, unit);
    assert OutlineAt(pts, c, n - 1);
    Offset.JoinAtSame(out, c, n - 1, Offset.Track(c, unit, z, n - 2), Offset.Track(c, unit, z, n - 1), d, d, t, 1);
    Offset.JoinAtSame(out, c, n, Offset.Track(c, unit, z, n - 1), Offset.Track(c, unit, z, n), d, Offset.Neg(d), t, 1);
    OutlineEndLeft(pts, c, out, t, d);
    OutlineEndRight(pts, c, out, t, d);
  }

  lemma OutlineEndLeft(pts: seq<Point3D>, c: seq<real>, out: seq<real>, t: real, d: Offset.Vec2)
    requires 2 <= |pts| && |c| == 6 * |pts| && |out| == |c| && OutlineAt(pts, c, |pts| - 1)
    requires Offset.JoinAt(out, c, |pts| - 1, d, d, t, 1)
    ensures var p := pts[|pts| - 1];
      PointOf(out, |pts| - 1) == Beside(p, d, t)
  {
    Offset.JoinStraight(out, c, |pts| - 1, d, t, 1);
  }

  lemma OutlineEndRight(pts: seq<Point3D>, c: seq<real>, out: seq<real>, t: real, d: Offset.Vec2)
    requires 2 <= |pts| && |c| == 6 * |pts| && |out| == |c| && OutlineAt(pts, c, |pts| - 1)
    requires Offset.JoinAt(out, c, |pts|, d, Offset.Neg(d), t, 1)
    ensures var p := pts[|pts| - 1];
      PointOf(out, |pts|) == Beside(p, d, -t)
  {
    Offset.JoinFoldBack(out, c, |pts|, d, t, 1);
  }

  /** Around the turn of the outline the running direction is the last
      segment's, kept across the zero-length edge, then reversed. */
  lemma OutlineEndTracks(pts: seq<Point3D>, c: seq<real>, unit: Offset.Vec2 -> Offset.Vec2)
    requires 2 <= |pts| && IsOutline(pts, c)
    requires var e := Step(pts[|pts| - 2], pts[|pts| - 1]);
      !Offset.IsZero(e) && unit(Offset.Neg(e)) == Offset.Neg(unit(e))
    ensures var n, d := |pts|, unit(Step(pts[|pts| - 2], pts[|pts| - 1]));
      && Offset.Track(c, unit, Offset.Zero, n - 2) == d
      && Offset.Track(c, unit, Offset.Zero, n - 1) == d
      && Offset.Track(c, unit, Offset.Zero, n) == Offset.Neg(d)
  {
    var n := |pts|;
    var e := Step(pts[n - 2], pts[n - 1]);
    assert OutlineAt(pts, c, n - 2) && OutlineAt(pts, c, n - 1);
    assert Offset.Edge(c, n - 2) == e;
    assert Offset.IsZero(Offset.Edge(c, n - 1));
    assert Offset.Edge(c, n) == Offset.Neg(e);
    assert Offset.Track(c, unit, Offset.Zero, n - 2) == unit(e);
  }

  /** At the first point the ribbon's two vertices (the first and the last
      of the outline) straddle the line across the first segment's
      direction d. */
  lemma OutlineStartSpans(pts: seq<Point3D>, c: seq<real>, out: seq<real>, t: real, unit: Offset.Vec2 -> Offset.Vec2)
    requires 2 <= |pts| && |c| == 6 * |pts| && |out| == |c|
    requires var e := Step(pts[0], pts[1]);
      !Offset.IsZero(e) && unit(Offset.Neg(e)) == Offset.Neg(unit(e))
    requires OutlineAt(pts, c, 0) && OutlineAt(pts, c, 1)
    requires Offset.IsOpenOffset(c, out, unit, t, 1)
    ensures var d, p := unit(Step(pts[0], pts[1])), pts[0];
      PointOf(out, 0) == Beside(p, d, t)
    ensures var d, p := unit(Step(pts[0], pts[1])), pts[0];
      PointOf(out, 2 * |pts| - 1) == Beside(p, d, -t)
  {
    var d := unit(Step(pts[0], pts[1]));
    OutlineStartDirection(pts, c, unit);
    OutlineReturnDirection(pts, c, unit);
    OutlineStartLeft(pts, c, out, unit, t, d);
    OutlineStartRight(pts, c, out, unit, t, d);
  }

  /** The first edge of the outline is the first segment. */
  lemma OutlineStartDirection(pts: seq<Point3D>, c: seq<real>, unit: Offset.Vec2 -> Offset.Vec2)
    requires 2 <= |pts| && |c| == 6 * |pts| && OutlineAt(pts, c, 0) && OutlineAt(pts, c, 1)
    requires !Offset.IsZero(Step(pts[0], pts[1]))
    ensures Offset.Normalize(unit, Offset.Edge(c, 0)) == unit(Step(pts[0], pts[1]))
  {
    EdgeBetween(c, 0, pts[0], pts[1]);
  }

  /** The last edge of the outline runs back along the first segment. */
  lemma OutlineReturnDirection(pts: seq<Point3D>, c: seq<real>, unit: Offset.Vec2 -> Offset.Vec2)
    requires 2 <= |pts| && |c| == 6 * |pts| && OutlineAt(pts, c, 0) && OutlineAt(pts, c, 1)
    requires var e := Step(pts[0], pts[1]);
      !Offset.IsZero(e) && unit(Offset.Neg(e)) == Offset.Neg(unit(e))
    ensures Offset.Track(c, unit, Offset.Zero, 2 * |pts| - 2) == Offset.Neg(unit(Step(pts[0], pts[1])))
  {
    EdgeBetween(c, 0, pts[0], pts[1]);
    EdgeBetween(c, 2 * |pts| - 2, pts[1], pts[0]);
  }

  /** The edge from a vertex at a to the next vertex, at b, is the step
      from a to b. */
  lemma EdgeBetween(c: seq<real>, k: nat, a: Point3D, b: Point3D)
    requires 3 * k + 5 < |c| && PointOf(c, k) == a && PointOf(c, k + 1) == b
    ensures Offset.Edge(c, k) == Step(a, b) && Step(b, a) == Offset.Neg(Step(a, b))
  {
  }

  lemma OutlineStartLeft(pts: seq<Point3D>, c: seq<real>, out: seq<real>, unit: Offset.Vec2 -> Offset.Vec2, t: real, d: Offset.Vec2)
    requires 2 <= |pts| && |c| == 6 * |pts| && |out| == |c| && OutlineAt(pts, c, 0)
    requires Offset.IsOpenOffset(c, out, unit, t, 1) && Offset.Normalize(unit, Offset.Edge(c, 0)) == d
    ensures var p := pts[0];
      PointOf(out, 0) == Beside(p, d, t)
  {
    Offset.OpenEndsMoved(c, out, unit, t, 1, 2 * |pts|);
  }

  lemma OutlineStartRight(pts: seq<Point3D>, c: seq<real>, out: seq<real>, unit: Offset.Vec2 -> Offset.Vec2, t: real, d: Offset.Vec2)
    requires 2 <= |pts| && |c| == 6 * |pts| && |out| == |c| && OutlineAt(pts, c, 0)
    requires Offset.IsOpenOffset(c, out, unit, t, 1) && Offset.Track(c, unit, Offset.Zero, 2 * |pts| - 2) == Offset.Neg(d)
    ensures var p := pts[0];
      PointOf(out, 2 * |pts| - 1) == Beside(p, d, -t)
  {
    Offset.OpenEndsMoved(c, out, unit, t, 1, 2 * |pts|);
  }

  // ---------------------------------------------------------------------
  // buildRibbon
  // ---------------------------------------------------------------------

  /** A point raised by w along z. */
  function Raised(p: Point3D, w: real): Point3D {
    Point3D(p.x, p.y, p.z + w)
  }

  /** buildRibbon's vertices: every point followed by its copy raised by
      the width. */
  function RibbonPoints(pts: seq<Point3D>, width: real): (c: seq<real>)
    ensures |c| == 6 * |pts|
    decreases |pts|
  {
    if |pts| == 0 then []
    else
      var p := pts[|pts| - 1];
      RibbonPoints(pts[..|pts| - 1], width) + [p.x, p.y, p.z, p.x, p.y, p.z + width]
  }

  /** Vertex 2k of the ribbon is point k, vertex 2k+1 is point k raised. */
  lemma {:induction false} RibbonPointsLayout(pts: seq<Point3D>, width: real)
    ensures forall k :: 0 <= k < |pts| ==>
              PointOf(RibbonPoints(pts, width), 2 * k) == pts[k]
              && PointOf(RibbonPoints(pts, width), 2 * k + 1) == Raised(pts[k], width)
    decreases |pts|
  {
    if |pts| > 0 {
      var n := |pts| - 1;
      var pre := pts[..n];
      var c := RibbonPoints(pts, width);
      RibbonPointsLayout(pre, width);
      assert c == RibbonPoints(pre, width) + [pts[n].x, pts[n].y, pts[n].z, pts[n].x, pts[n].y, pts[n].z + width];
      forall k | 0 <= k < |pts|
        ensures PointOf(c, 2 * k) == pts[k] && PointOf(c, 2 * k + 1) == Raised(pts[k], width)
      {
        if k < n {
          assert pre[k] == pts[k];
          assert PointOf(c, 2 * k) == PointOf(RibbonPoints(pre, width), 2 * k);
          assert PointOf(c, 2 * k + 1) == PointOf(RibbonPoints(pre, width), 2 * k + 1);
        }
      }
    }
  }

  /** The four triangles buildRibbon adds for the segment whose second
      point has vertices i and i+1: two facing front, then the same two
      listed back to front. */
  function RibbonQuad(i: int): seq<Faces.Triangle> {
    [Faces.Triangle(i, i - 2, i + 1), Faces.Triangle(i + 1, i - 2, i - 1),
     Faces.Triangle(i + 1, i - 2, i), Faces.Triangle(i - 1, i - 2, i + 1)]
  }

  /** buildRibbon's triangles for n points, segment by segment. */
  function RibbonTriangles(n: nat): (ts: seq<Faces.Triangle>)
    ensures |ts| == if n == 0 then 0 else 4 * (n - 1)
    decreases n
  {
    if n <= 1 then [] else RibbonTriangles(n - 1) + RibbonQuad(2 * (n - 1))
  }

  /** The face array of buildRibbon for n points. */
  function RibbonFaces(n: nat): (faces: seq<int>)
    ensures |faces| == if n == 0 then 0 else 24 * (n - 1)
  {
    Faces.FacesOf(RibbonTriangles(n))
  }

  /** Segment s joins point s (vertices 2s, 2s+1) to point s+1 (2s+2,
      2s+3): two front triangles covering that quad, then each of them
      again with its corners in reverse order. */
  predicate RibbonSegmentAt(ts: seq<Faces.Triangle>, s: nat)
    requires 4 * s + 4 <= |ts|
  {
    && ts[4 * s] == Faces.Triangle(2 * s + 2, 2 * s, 2 * s + 3)
    && ts[4 * s + 1] == Faces.Triangle(2 * s + 3, 2 * s, 2 * s + 1)
    && ts[4 * s + 2] == Faces.Reversed(ts[4 * s])
    && ts[4 * s + 3] == Faces.Reversed(ts[4 * s + 1])
  }

  lemma {:induction false} RibbonTrianglesShape(n: nat)
    ensures forall s :: 0 <= s < n - 1 ==> RibbonSegmentAt(RibbonTriangles(n), s)
    decreases n
  {
    if n > 1 {
      var ts := RibbonTriangles(n);
      var pre := RibbonTriangles(n - 1);
      RibbonTrianglesShape(n - 1);
      assert ts == pre + RibbonQuad(2 * (n - 1));
      forall s | 0 <= s < n - 1
        ensures RibbonSegmentAt(ts, s)
      {
        if s < n - 2 {
          assert RibbonSegmentAt(pre, s);
          assert ts[4 * s] == pre[4 * s] && ts[4 * s + 1] == pre[4 * s + 1];
          assert ts[4 * s + 2] == pre[4 * s + 2] && ts[4 * s + 3] == pre[4 * s + 3];
        }
      }
    }
  }

  /** The four triangles of segment s name vertices of points s and s+1 only. */
  lemma SegmentInRange(ts: seq<Faces.Triangle>, s: nat, g: nat)
    requires 4 * s + 4 <= |ts| && RibbonSegmentAt(ts, s) && 4 * s <= g < 4 * s + 4
    ensures Faces.InRange(ts[g], 0, 2 * s + 4)
  {
  }

  /** Every ribbon triangle names only vertices of the n points, and the
      back triangle of each pair lists the front one's corners in reverse,
      which winds it the other way. */
  lemma RibbonFacesShape(n: nat)
    requires 1 <= n
    ensures |RibbonFaces(n)| == 24 * (n - 1)
    ensures Faces.WellIndexed(RibbonFaces(n), 0, 2 * n)
    ensures forall s :: 0 <= s < n - 1 ==>
      var f := RibbonFaces(n);
      && Faces.TriangleAt(f, 4 * s + 2) == Faces.Reversed(Faces.TriangleAt(f, 4 * s))
      && Faces.TriangleAt(f, 4 * s + 3) == Faces.Reversed(Faces.TriangleAt(f, 4 * s + 1))
      && Faces.SameWinding(Faces.Flip(Faces.TriangleAt(f, 4 * s)), Faces.TriangleAt(f, 4 * s + 2))
  {
    RibbonTrianglesShape(n);
    RibbonFacesInRange(n);
    RibbonFacesBack(n);
    var f := RibbonFaces(n);
    forall s | 0 <= s < n - 1
      ensures Faces.SameWinding(Faces.Flip(Faces.TriangleAt(f, 4 * s)), Faces.TriangleAt(f, 4 * s + 2))
    {
      Faces.ReversedIsFlipped(Faces.TriangleAt(f, 4 * s));
    }
  }

  /** The ribbon's faces index only the 2n vertices. */
  lemma RibbonFacesInRange(n: nat)
    requires 1 <= n
    requires forall s :: 0 <= s < n - 1 ==> RibbonSegmentAt(RibbonTriangles(n), s)
    ensures Faces.WellIndexed(RibbonFaces(n), 0, 2 * n)
  {
    var ts := RibbonTriangles(n);
    forall g | 0 <= g < |ts|
      ensures Faces.InRange(ts[g], 0, 2 * n)
    {
      var s := g / 4;
      assert 4 * s <= g < 4 * s + 4 && s < n - 1;
      SegmentInRange(ts, s, g);
    }
    Faces.FacesOfInRange(ts, 0, 2 * n);
  }

  /** In the ribbon's faces each back triangle is its front one reversed. */
  lemma RibbonFacesBack(n: nat)
    requires 1 <= n
    requires forall s :: 0 <= s < n - 1 ==> RibbonSegmentAt(RibbonTriangles(n), s)
    ensures forall s :: 0 <= s < n - 1 ==>
      var f := RibbonFaces(n);
      && Faces.TriangleAt(f, 4 * s + 2) == Faces.Reversed(Faces.TriangleAt(f, 4 * s))
      && Faces.TriangleAt(f, 4 * s + 3) == Faces.Reversed(Faces.TriangleAt(f, 4 * s + 1))
  {
    var ts := RibbonTriangles(n);
    Faces.FacesOfAt(ts);
    forall s | 0 <= s < n - 1
      ensures Faces.TriangleAt(RibbonFaces(n), 4 * s + 2) == Faces.Reversed(Faces.TriangleAt(RibbonFaces(n), 4 * s))
      ensures Faces.TriangleAt(RibbonFaces(n), 4 * s + 3) == Faces.Reversed(Faces.TriangleAt(RibbonFaces(n), 4 * s + 1))
    {
      assert RibbonSegmentAt(ts, s);
    }
  }

  /** The first loop of buildRibbon: each point, then its raised copy. */
  method RibbonVertices(pts: seq<Point3D>, width: real) returns (points: seq<real>)
    ensures points == RibbonPoints(pts, width)
  {
    points := [];
    var k := 0;
    while k < |pts|
      invariant 0 <= k <= |pts| && points == RibbonPoints(pts[..k], width)
    {
      var p := pts[k];
      points := points + [p.x, p.y, p.z];
      points := points + [p.x, p.y, p.z + width];
      assert pts[..k + 1][..k] == pts[..k];
      k := k + 1;
    }
    assert pts[..|pts|] == pts;
  }

  /** The second loop of buildRibbon: four triangles per segment. */
  method RibbonFaceList(n: nat) returns (faces: seq<int>)
    ensures faces == RibbonFaces(n)
  {
    faces := [];
    // i is the Java index 2k of the first vertex of point k
    var i, k := 2, 1;
    while i < n * 2
      invariant i == 2 * k && 1 <= k && (k <= n || k == 1)
      invariant faces == RibbonFaces(k)
    {
      RibbonFacesStep(k);
      faces := AppendQuad(faces, i);
      i, k := i + 2, k + 1;
    }
    assert RibbonFaces(n) == RibbonFaces(k);
  }

  /** The four face writes of one pass of buildRibbon's second loop. */
  method AppendQuad(faces: seq<int>, i: int) returns (r: seq<int>)
    ensures r == faces + Faces.FacesOf(RibbonQuad(i))
  {
    QuadFaces(i);
    r := faces + Faces.Tri(i, i - 2, i + 1);
    r := r + Faces.Tri(i + 1, i - 2, i - 1);
    r := r + Faces.Tri(i + 1, i - 2, i);
    r := r + Faces.Tri(i - 1, i - 2, i + 1);
  }

  /** The face ints of one ribbon segment, in the order the loop appends them. */
  lemma QuadFaces(i: int)
    ensures Faces.FacesOf(RibbonQuad(i)) ==
      Faces.Tri(i, i - 2, i + 1) + Faces.Tri(i + 1, i - 2, i - 1)
      + Faces.Tri(i + 1, i - 2, i) + Faces.Tri(i - 1, i - 2, i + 1)
  {
    var q := RibbonQuad(i);
    Faces.FacesOfSnoc(q[..3], q[3]);
    Faces.FacesOfSnoc(q[..2], q[2]);
    Faces.FacesOfSnoc(q[..1], q[1]);
    Faces.FacesOfSnoc([], q[0]);
    assert q[..3] + [q[3]] == q;
    assert q[..2] + [q[2]] == q[..3];
    assert q[..1] + [q[1]] == q[..2];
    assert [] + [q[0]] == q[..1];
  }

  /** One more point adds the four triangles of its segment. */
  lemma RibbonFacesStep(n: nat)
    requires n >= 1
    ensures RibbonFaces(n + 1) == RibbonFaces(n) + Faces.FacesOf(RibbonQuad(2 * n))
  {
    assert RibbonTriangles(n + 1) == RibbonTriangles(n) + RibbonQuad(2 * n);
    Faces.FacesOfAppend(RibbonTriangles(n), RibbonQuad(2 * n));
  }

  /** PolyLine3D.buildRibbon: a null list leaves the mesh as it was;
      otherwise the vertices become every point and its raised copy, the
      texture coordinates a single (0, 0), and the faces the ribbon's
      triangles, while the smoothing groups are left untouched. */
  function BuildRibbon(points: Option<seq<Point3D>>, width: real, mesh: Mesh): (m: Mesh)
    ensures points.None? ==> m == mesh
    ensures points.Some? ==>
      && |m.points| == 6 * |points.value|
      && (forall k :: 0 <= k < |points.value| ==>
            PointOf(m.points, 2 * k) == points.value[k]
            && PointOf(m.points, 2 * k + 1) == Raised(points.value[k], width))
      && m.texCoords == [0.0, 0.0]
      && (|points.value| >= 1 ==> Faces.WellIndexed(m.faces, 0, 2 * |points.value|))
      && m.smoothingGroups == mesh.smoothingGroups
  {
    match points
    case None => mesh
    case Some(pts) =>
      RibbonPointsLayout(pts, width);
      if |pts| >= 1 then RibbonFacesShape(|pts|); Mesh(RibbonPoints(pts, width), [0.0, 0.0], RibbonFaces(|pts|), mesh.smoothingGroups)
      else Mesh(RibbonPoints(pts, width), [0.0, 0.0], RibbonFaces(|pts|), mesh.smoothingGroups)
  }

  // ---------------------------------------------------------------------
  // buildTriangleTube
  // ---------------------------------------------------------------------

  /** Corner j of the tube's cross-section around p, for half-width h: an
      equilateral triangle centred on p, lowered by 0.204124h along z. */
  function RingVertex(p: Point3D, j: nat, h: real): Point3D
    requires j < 3
  {
    if j == 0 then Point3D(p.x - 0.288675 * h, p.y - 0.5 * h, p.z - 0.204124 * h)
    else if j == 1 then Point3D(p.x - 0.288675 * h, p.y + 0.5 * h, p.z - 0.204124 * h)
    else Point3D(p.x + 0.57735 * h, p.y, p.z - 0.204124 * h)
  }

  /** The cross-section as the loop body writes it: the third corner is
      also moved by +0.5h along y. */
  function RingVertexAsWritten(p: Point3D, j: nat, h: real): Point3D
    requires j < 3
  {
    if j == 2 then Point3D(p.x + 0.57735 * h, p.y + 0.5 * h, p.z - 0.204124 * h)
    else RingVertex(p, j, h)
  }

  /** Squared distance between two points. */
  function SqDist(a: Point3D, b: Point3D): real {
    (a.x - b.x) * (a.x - b.x) + (a.y - b.y) * (a.y - b.y) + (a.z - b.z) * (a.z - b.z)
  }

  /** As written, the cross-section is far from equilateral: the sides
      from the third corner are about 1.32h and 0.87h against h, and its
      centre sits h/6 off the point along y. */
  lemma RingAsWrittenIsLopsided(p: Point3D, h: real)
    requires h != 0.0
    ensures var v0, v1, v2 := RingVertexAsWritten(p, 0, h), RingVertexAsWritten(p, 1, h), RingVertexAsWritten(p, 2, h);
      && SqDist(v0, v1) == h * h
      && SqDist(v0, v2) == 1.749999300625 * (h * h)
      && SqDist(v1, v2) == 0.749999300625 * (h * h)
      && SqDist(v0, v2) - SqDist(v1, v2) == h * h
      && v0.y + v1.y + v2.y == 3.0 * p.y + 0.5 * h
  {
    var v0, v1, v2 := RingVertexAsWritten(p, 0, h), RingVertexAsWritten(p, 1, h), RingVertexAsWritten(p, 2, h);
    assert v0.x - v1.x == 0.0 && v0.y - v1.y == -1.0 * h && v0.z - v1.z == 0.0;
    assert v0.x - v2.x == -0.866025 * h && v0.y - v2.y == -1.0 * h && v0.z - v2.z == 0.0;
    assert v1.x - v2.x == -0.866025 * h && v1.y - v2.y == 0.0 && v1.z - v2.z == 0.0;
  }

  /** The corrected cross-section has three sides of length h, up to the
      rounding of the six-digit constants, and is centred on the point in
      the x,y plane. */
  lemma RingIsEquilateral(p: Point3D, h: real)
    ensures var v0, v1, v2 := RingVertex(p, 0, h), RingVertex(p, 1, h), RingVertex(p, 2, h);
      && SqDist(v0, v1) == h * h
      && SqDist(v0, v2) == SqDist(v1, v2)
      && h * h - SqDist(v0, v2) == 0.000000699375 * (h * h)
      && v0.x + v1.x + v2.x == 3.0 * p.x && v0.y + v1.y + v2.y == 3.0 * p.y
  {
    var v0, v1, v2 := RingVertex(p, 0, h), RingVertex(p, 1, h), RingVertex(p, 2, h);
    assert v0.x - v1.x == 0.0 && v0.y - v1.y == -1.0 * h && v0.z - v1.z == 0.0;
    assert v0.x - v2.x == -0.866025 * h && v0.y - v2.y == -0.5 * h && v0.z - v2.z == 0.0;
    assert v1.x - v2.x == -0.866025 * h && v1.y - v2.y == 0.5 * h && v1.z - v2.z == 0.0;
  }

  /** buildTriangleTube's vertices: three ring corners per point. */
  function TubePoints(pts: seq<Point3D>, h: real): (c: seq<real>)
    ensures |c| == 9 * |pts|
    decreases |pts|
  {
    if |pts| == 0 then []
    else
      var p := pts[|pts| - 1];
      var v0, v1, v2 := RingVertex(p, 0, h), RingVertex(p, 1, h), RingVertex(p, 2, h);
      TubePoints(pts[..|pts| - 1], h) + [v0.x, v0.y, v0.z] + [v1.x, v1.y, v1.z] + [v2.x, v2.y, v2.z]
  }

  /** Vertex 3k+j of c is corner j of the ring of half-size h around
      point k, for every point. */
  predicate RingsAt(c: seq<real>, pts: seq<Point3D>, h: real) {
    && |c| == 9 * |pts|
    && forall k :: 0 <= k < |pts| ==> RingAt(c, pts, h, k)
  }

  /** Vertices 3k, 3k+1, 3k+2 of c are the ring around point k. */
  predicate RingAt(c: seq<real>, pts: seq<Point3D>, h: real, k: nat)
    requires k < |pts| && |c| == 9 * |pts|
  {
    forall j :: 0 <= j < 3 ==> PointOf(c, 3 * k + j) == RingVertex(pts[k], j, h)
  }

  /** Vertex 3k+j of the tube is corner j of the ring around point k. */
  lemma {:induction false} TubePointsRings(pts: seq<Point3D>, h: real)
    ensures RingsAt(TubePoints(pts, h), pts, h)
    decreases |pts|
  {
    if |pts| > 0 {
      var n := |pts| - 1;
      var pre := pts[..n];
      var c, d := TubePoints(pts, h), TubePoints(pre, h);
      TubePointsRings(pre, h);
      assert d == c[..|d|];
      forall k | 0 <= k < |pts|
        ensures RingAt(c, pts, h, k)
      {
        if k < n {
          assert RingAt(d, pre, h, k);
          RingKept(c, d, pts, pre, h, k);
        } else {
          LastRing(c, d, pts, h);
        }
      }
    }
  }

  /** The last ring of the tube is the one around the last point. */
  lemma LastRing(c: seq<real>, d: seq<real>, pts: seq<Point3D>, h: real)
    requires |pts| >= 1 && c == TubePoints(pts, h) && d == TubePoints(pts[..|pts| - 1], h)
    ensures RingAt(c, pts, h, |pts| - 1)
  {
    var p := pts[|pts| - 1];
    var v0, v1, v2 := RingVertex(p, 0, h), RingVertex(p, 1, h), RingVertex(p, 2, h);
    assert c == d + [v0.x, v0.y, v0.z, v1.x, v1.y, v1.z, v2.x, v2.y, v2.z];
    forall j | 0 <= j < 3
      ensures PointOf(c, 3 * (|pts| - 1) + j) == [v0, v1, v2][j]
    {
    }
  }

  /** Appending vertices after a ring leaves it in place. */
  lemma RingKept(c: seq<real>, d: seq<real>, pts: seq<Point3D>, pre: seq<Point3D>, h: real, k: nat)
    requires |pre| <= |pts| && |c| == 9 * |pts| && |d| == 9 * |pre| && k < |pre|
    requires d == c[..|d|] && pre == pts[..|pre|]
    requires RingAt(d, pre, h, k)
    ensures RingAt(c, pts, h, k)
  {
    forall j | 0 <= j < 3
      ensures PointOf(c, 3 * k + j) == RingVertex(pts[k], j, h)
    {
      var q := 3 * k + j;
      assert PointOf(d, q) == RingVertex(pre[k], j, h);
      assert 3 * q + 2 < |d|;
      assert d[3 * q] == c[3 * q] && d[3 * q + 1] == c[3 * q + 1] && d[3 * q + 2] == c[3 * q + 2];
    }
  }

  /** The six triangles buildTriangleTube adds between the ring ending at
      vertex i-1 and the ring starting at vertex i: two per side face. */
  function TubeSegment(i: int): seq<Faces.Triangle> {
    [Faces.Triangle(i + 2, i - 2, i + 1), Faces.Triangle(i + 2, i - 1, i - 2),
     Faces.Triangle(i + 2, i - 3, i - 1), Faces.Triangle(i, i - 3, i + 2),
     Faces.Triangle(i, i + 1, i - 3), Faces.Triangle(i + 1, i - 2, i - 3)]
  }

  /** The side triangles of a tube through n points. */
  function TubeSides(n: nat): (ts: seq<Faces.Triangle>)
    ensures |ts| == if n == 0 then 0 else 6 * (n - 1)
    decreases n
  {
    if n <= 1 then [] else TubeSides(n - 1) + TubeSegment(3 * (n - 1))
  }

  /** All triangles of the tube: the start cap, the sides, the end cap. */
  function TubeTriangles(n: nat): seq<Faces.Triangle> {
    [Faces.Triangle(0, 1, 2)] + TubeSides(n) + [Faces.Triangle(3 * n - 1, 3 * n - 2, 3 * n - 3)]
  }

  /** True iff t uses only corners of rings s-1 and s, and at least one
      corner of each: a side triangle bridging the two rings. */
  predicate Bridges(t: Faces.Triangle, s: int) {
    && Faces.InRange(t, 3 * s - 3, 3 * s + 3)
    && (t.v0 < 3 * s || t.v1 < 3 * s || t.v2 < 3 * s)
    && (t.v0 >= 3 * s || t.v1 >= 3 * s || t.v2 >= 3 * s)
  }

  /** Side triangle g lies between rings g/6 and g/6 + 1. */
  lemma {:induction false} TubeSidesBridge(n: nat)
    ensures forall g :: 0 <= g < |TubeSides(n)| ==> Bridges(TubeSides(n)[g], g / 6 + 1)
    decreases n
  {
    if n > 1 {
      var ts := TubeSides(n);
      var pre := TubeSides(n - 1);
      TubeSidesBridge(n - 1);
      assert ts == pre + TubeSegment(3 * (n - 1));
      forall g | 0 <= g < |ts|
        ensures Bridges(ts[g], g / 6 + 1)
      {
        if g < |pre| {
          assert ts[g] == pre[g];
        } else {
          var j := g - |pre|;
          assert g / 6 + 1 == n - 1;
          assert ts[g] == TubeSegment(3 * (n - 1))[j];
        }
      }
    }
  }

  /** A side triangle bridges two of the n rings, so it names tube vertices only. */
  lemma SideInRange(sides: seq<Faces.Triangle>, n: nat, g: nat)
    requires |sides| == 6 * (n - 1) && g < |sides| && Bridges(sides[g], g / 6 + 1)
    ensures Faces.InRange(sides[g], 0, 3 * n)
  {
    assert g / 6 + 1 <= n - 1;
  }

  /** The tube for n >= 1 points: 2 + 6(n-1) triangles, all indexing its 3n
      vertices; a start cap on ring 0 and an end cap on the last ring wound
      the other way; every side triangle bridging two consecutive rings.
      With no points the two caps still appear, naming vertices -1, -2, -3. */
  lemma TubeFacesShape(n: nat)
    ensures var f := Faces.FacesOf(TubeTriangles(n));
      && |f| == 6 * (2 + |TubeSides(n)|)
      && Faces.TriangleAt(f, 0) == Faces.Triangle(0, 1, 2)
      && Faces.TriangleAt(f, |f| / 6 - 1) == Faces.Reversed(Faces.Triangle(3 * n - 3, 3 * n - 2, 3 * n - 1))
      && (forall g :: 1 <= g < |f| / 6 - 1 ==> Bridges(Faces.TriangleAt(f, g), (g - 1) / 6 + 1))
      && (n >= 1 ==> |f| == 6 * (2 + 6 * (n - 1)) && Faces.WellIndexed(f, 0, 3 * n))
      && (n == 0 ==> |f| == 12 && Faces.TriangleAt(f, 1) == Faces.Triangle(-1, -2, -3))
  {
    var ts := TubeTriangles(n);
    var sides := TubeSides(n);
    Faces.FacesOfAt(ts);
    TubeSidesBridge(n);
    forall g | 1 <= g < |ts| - 1
      ensures ts[g] == sides[g - 1]
    {
    }
    if n >= 1 {
      TubeTrianglesInRange(n);
      Faces.FacesOfInRange(ts, 0, 3 * n);
    }
  }

  /** With at least one point every tube triangle names one of the 3n ring vertices. */
  lemma TubeTrianglesInRange(n: nat)
    requires n >= 1
    ensures forall g :: 0 <= g < |TubeTriangles(n)| ==> Faces.InRange(TubeTriangles(n)[g], 0, 3 * n)
  {
    var ts := TubeTriangles(n);
    var sides := TubeSides(n);
    TubeSidesBridge(n);
    forall g | 0 <= g < |ts|
      ensures Faces.InRange(ts[g], 0, 3 * n)
    {
      if 1 <= g < |ts| - 1 {
        assert ts[g] == sides[g - 1];
        SideInRange(sides, n, g - 1);
      }
    }
  }

  /** The first loop of buildTriangleTube: three ring vertices per point. */
  method TubeVertices(pts: seq<Point3D>, h: real) returns (points: seq<real>)
    ensures points == TubePoints(pts, h)
  {
    points := [];
    var k := 0;
    while k < |pts|
      invariant 0 <= k <= |pts| && points == TubePoints(pts[..k], h)
    {
      var p := pts[k];
      var v0, v1, v2 := RingVertex(p, 0, h), RingVertex(p, 1, h), RingVertex(p, 2, h);
      points := points + [v0.x, v0.y, v0.z];
      points := points + [v1.x, v1.y, v1.z];
      points := points + [v2.x, v2.y, v2.z];
      assert pts[..k + 1][..k] == pts[..k];
      k := k + 1;
    }
    assert pts[..|pts|] == pts;
  }

  /** The face writes of buildTriangleTube for n points: the start cap, the
      side segments, the end cap. */
  method TubeFaceList(n: nat) returns (faces: seq<int>)
    ensures faces == Faces.FacesOf(TubeTriangles(n))
  {
    TubeFacesStart();
    faces := Faces.Tri(0, 1, 2);
    // i is the Java index 3k of the first vertex of ring k
    var i, k := 3, 1;
    while i < n * 3
      invariant i == 3 * k && 1 <= k && (k <= n || k == 1)
      invariant faces == Faces.FacesOf([Faces.Triangle(0, 1, 2)] + TubeSides(k))
    {
      TubeFacesStep(k);
      faces := AppendSegment(faces, i);
      i, k := i + 3, k + 1;
    }
    var last := n * 3 - 1;
    TubeFacesEnd(n, k);
    faces := faces + Faces.Tri(last, last - 1, last - 2);
  }

  lemma TubeFacesStart()
    ensures Faces.Tri(0, 1, 2) == Faces.FacesOf([Faces.Triangle(0, 1, 2)] + TubeSides(1))
  {
    Faces.FacesOfSnoc([], Faces.Triangle(0, 1, 2));
    assert [] + [Faces.Triangle(0, 1, 2)] == [Faces.Triangle(0, 1, 2)] + TubeSides(1);
  }

  /** Once the loop has stopped, the end cap completes the tube's faces. */
  lemma TubeFacesEnd(n: nat, k: nat)
    requires k == n || (n == 0 && k == 1)
    ensures var last := 3 * n - 1;
      Faces.FacesOf([Faces.Triangle(0, 1, 2)] + TubeSides(k)) + Faces.Tri(last, last - 1, last - 2)
      == Faces.FacesOf(TubeTriangles(n))
  {
    var last := 3 * n - 1;
    assert TubeSides(n) == TubeSides(k);
    Faces.FacesOfSnoc([Faces.Triangle(0, 1, 2)] + TubeSides(n), Faces.Triangle(last, last - 1, last - 2));
  }

  /** One more point adds the six side triangles of its segment. */
  lemma TubeFacesStep(n: nat)
    requires n >= 1
    ensures Faces.FacesOf([Faces.Triangle(0, 1, 2)] + TubeSides(n + 1)) ==
      Faces.FacesOf([Faces.Triangle(0, 1, 2)] + TubeSides(n)) + Faces.FacesOf(TubeSegment(3 * n))
  {
    var ts := [Faces.Triangle(0, 1, 2)] + TubeSides(n);
    assert TubeSides(n + 1) == TubeSides(n) + TubeSegment(3 * n);
    assert [Faces.Triangle(0, 1, 2)] + TubeSides(n + 1) == ts + TubeSegment(3 * n);
    Faces.FacesOfAppend(ts, TubeSegment(3 * n));
  }

  /** The six face writes of one pass of buildTriangleTube's loop. */
  method AppendSegment(faces: seq<int>, i: int) returns (r: seq<int>)
    ensures r == faces + Faces.FacesOf(TubeSegment(i))
  {
    SegmentFaces(i);
    r := faces + Faces.Tri(i + 2, i - 2, i + 1);
    r := r + Faces.Tri(i + 2, i - 1, i - 2);
    r := r + Faces.Tri(i + 2, i - 3, i - 1);
    r := r + Faces.Tri(i, i - 3, i + 2);
    r := r + Faces.Tri(i, i + 1, i - 3);
    r := r + Faces.Tri(i + 1, i - 2, i - 3);
  }

  /** The face ints of one tube segment, in the order the loop appends them. */
  lemma SegmentFaces(i: int)
    ensures Faces.FacesOf(TubeSegment(i)) ==
      Faces.Tri(i + 2, i - 2, i + 1) + Faces.Tri(i + 2, i - 1, i - 2) + Faces.Tri(i + 2, i - 3, i - 1)
      + Faces.Tri(i, i - 3, i + 2) + Faces.Tri(i, i + 1, i - 3) + Faces.Tri(i + 1, i - 2, i - 3)
  {
    var s := TubeSegment(i);
    Faces.FacesOfSnoc(s[..5], s[5]);
    Faces.FacesOfSnoc(s[..4], s[4]);
    Faces.FacesOfSnoc(s[..3], s[3]);
    Faces.FacesOfSnoc(s[..2], s[2]);
    Faces.FacesOfSnoc(s[..1], s[1]);
    Faces.FacesOfSnoc([], s[0]);
    assert s[..5] + [s[5]] == s;
    assert s[..4] + [s[4]] == s[..5];
    assert s[..3] + [s[3]] == s[..4];
    assert s[..2] + [s[2]] == s[..3];
    assert s[..1] + [s[1]] == s[..2];
    assert [] + [s[0]] == s[..1];
  }

  /** The tube's face list: its length, and every index naming one of the
      3n ring vertices once there is a point. */
  lemma TubeFacesIndexed(n: nat)
    ensures var f := Faces.FacesOf(TubeTriangles(n));
      && |f| == (if n == 0 then 12 else 12 + 36 * (n - 1))
      && (n >= 1 ==> Faces.WellIndexed(f, 0, 3 * n))
  {
    TubeFacesShape(n);
  }

  /** `mesh` with vertices vs, texture coordinates tex and face ints fs
      appended to its own. */
  function Extend(mesh: Mesh, vs: seq<real>, tex: seq<real>, fs: seq<int>): (m: Mesh)
    ensures |m.points| == |mesh.points| + |vs|
    ensures m.points[..|mesh.points|] == mesh.points && m.points[|mesh.points|..] == vs
    ensures m.texCoords == mesh.texCoords + tex
    ensures |m.faces| == |mesh.faces| + |fs|
    ensures m.faces[..|mesh.faces|] == mesh.faces && m.faces[|mesh.faces|..] == fs
    ensures m.smoothingGroups == mesh.smoothingGroups
  {
    Mesh(mesh.points + vs, mesh.texCoords + tex, mesh.faces + fs, mesh.smoothingGroups)
  }

  /** PolyLine3D.buildTriangleTube: a null list throws; otherwise three ring
      vertices per point, one texture coordinate and the tube's triangles
      are appended to what the mesh already holds. */
  function BuildTriangleTube(points: Option<seq<Point3D>>, width: real, mesh: Mesh): (r: Result<Mesh, Error>)
    ensures r.Failure? <==> points.None?
    ensures r.Success? ==>
      var m, pts, h := r.value, points.value, width / 2.0;
      && |m.points| == |mesh.points| + 9 * |pts|
      && m.points[..|mesh.points|] == mesh.points
      && RingsAt(m.points[|mesh.points|..], pts, h)
      && m.texCoords == mesh.texCoords + [0.0, 0.0]
      && |m.faces| == |mesh.faces| + (if |pts| == 0 then 12 else 12 + 36 * (|pts| - 1))
      && m.faces[..|mesh.faces|] == mesh.faces
      && (|pts| >= 1 ==> Faces.WellIndexed(m.faces[|mesh.faces|..], 0, 3 * |pts|))
      && m.smoothingGroups == mesh.smoothingGroups
  {
    match points
    case None => Failure(NullPointer)
    case Some(pts) =>
      var h := width / 2.0;
      var vs, fs := TubePoints(pts, h), Faces.FacesOf(TubeTriangles(|pts|));
      TubePointsRings(pts, h);
      TubeFacesIndexed(|pts|);
      Success(Extend(mesh, vs, [0.0, 0.0], fs))
  }

  // ---------------------------------------------------------------------
  // Construction and the setters
  // ---------------------------------------------------------------------

  /** The three-argument constructor: store the points and width, start
      from an empty mesh and build the chosen style. Among the three line
      types, only a tube over a null list fails. */
  function Create(points: Option<seq<Point3D>>, width: real, lineType: LineType,
                  unit: Offset.Vec2 -> Offset.Vec2, earcut: seq<real> -> seq<int>): (r: Result<PolyLine3D, Error>)
    ensures r.Failure? <==> lineType == Triangle && points.None?
    ensures r.Success? ==> r.value.points == points && r.value.width == width
    ensures lineType != Triangle && points.None? ==> r == Success(PolyLine3D(points, width, EmptyMesh))
    ensures lineType == CenterRibbon && points.Some? && |points.value| < 2 ==>
      r == Success(PolyLine3D(points, width, EmptyMesh))
  {
    match lineType
    case Triangle =>
      (match BuildTriangleTube(points, width, EmptyMesh)
       case Success(m) => Success(PolyLine3D(points, width, m))
       case Failure(e) => Failure(e))
    case Ribbon => Success(PolyLine3D(points, width, BuildRibbon(points, width, EmptyMesh)))
    case CenterRibbon =>
      Success(PolyLine3D(points, width, BuildCenterRibbon(points, width, EmptyMesh, unit, earcut)))
  }

  /** The no-argument constructor: no points, the default width, a centre
      ribbon, hence an empty mesh. */
  function CreateDefault(unit: Offset.Vec2 -> Offset.Vec2, earcut: seq<real> -> seq<int>): (r: Result<PolyLine3D, Error>)
    ensures r.Success? && r.value.points.None? && r.value.width == 1.0 && r.value.mesh == EmptyMesh
  {
    CreateWithWidth(None, DEFAULT_WIDTH, unit, earcut)
  }

  /** The two-argument constructor: a centre ribbon, which never fails. */
  function CreateWithWidth(points: Option<seq<Point3D>>, width: real,
                           unit: Offset.Vec2 -> Offset.Vec2, earcut: seq<real> -> seq<int>): (r: Result<PolyLine3D, Error>)
    ensures r.Success? && r.value.points == points && r.value.width == width
    ensures points.None? || |points.value| < 2 ==> r.value.mesh == EmptyMesh
    ensures points.Some? && |points.value| >= 2 ==> |r.value.mesh.points| == 6 * |points.value|
  {
    Create(points, width, CenterRibbon, unit, earcut)
  }

  /** With two or more points, the two-argument constructor's vertices are
      the outline offset by half the width. */
  lemma CreateWithWidthOffsets(points: seq<Point3D>, width: real,
                               unit: Offset.Vec2 -> Offset.Vec2, earcut: seq<real> -> seq<int>)
    requires 2 <= |points|
    ensures Offset.IsOpenOffset(Boundary(points), CreateWithWidth(Some(points), width, unit, earcut).value.mesh.points,
                                unit, width / 2.0, 1)
  {
    CenterRibbonLayout(points, width, EmptyMesh, unit, earcut);
  }

  /** setPoints: store the new points and rebuild as a centre ribbon. */
  function SetPoints(line: PolyLine3D, pnts: Option<seq<Point3D>>,
                     unit: Offset.Vec2 -> Offset.Vec2, earcut: seq<real> -> seq<int>): (r: PolyLine3D)
    ensures r.points == pnts && r.width == line.width
    ensures pnts.None? || |pnts.value| < 2 ==> r.mesh == line.mesh
    ensures pnts.Some? && |pnts.value| >= 2 ==>
      r.mesh == CreateWithWidth(pnts, line.width, unit, earcut).value.mesh
  {
    PolyLine3D(pnts, line.width, BuildCenterRibbon(pnts, line.width, line.mesh, unit, earcut))
  }

  /** setWidth: store the new width and rebuild as a centre ribbon. */
  function SetWidth(line: PolyLine3D, width: real,
                    unit: Offset.Vec2 -> Offset.Vec2, earcut: seq<real> -> seq<int>): (r: PolyLine3D)
    ensures r.points == line.points && r.width == width
    ensures line.points.None? || |line.points.value| < 2 ==> r.mesh == line.mesh
    ensures line.points.Some? && |line.points.value| >= 2 ==>
      r.mesh == CreateWithWidth(line.points, width, unit, earcut).value.mesh
  {
    PolyLine3D(line.points, width, BuildCenterRibbon(line.points, width, line.mesh, unit, earcut))
  }

  /** Whatever style a line was built in, a setter turns it into a centre
      ribbon: with at least two points, setting the width it already has
      gives the same state as building it afresh as a centre ribbon. */
  lemma SetWidthRebuildsAsCenterRibbon(points: seq<Point3D>, width: real, lineType: LineType,
                                       unit: Offset.Vec2 -> Offset.Vec2, earcut: seq<real> -> seq<int>)
    requires 2 <= |points|
    requires Create(Some(points), width, lineType, unit, earcut).Success?
    ensures SetWidth(Create(Some(points), width, lineType, unit, earcut).value, width, unit, earcut)
            == CreateWithWidth(Some(points), width, unit, earcut).value
  {
  }
}
