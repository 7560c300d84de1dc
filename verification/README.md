# PolyLine3D and MeshUtils, modelled in Dafny

This project models the polyline mesh builder of FXyz 3D: the class
`PolyLine3D` and the parts of `MeshUtils` it uses.

`PolyLine3D` turns a list of 3D points into a JavaFX `TriangleMesh` in one of three styles:

- a flat **centre ribbon** (the default), built by offsetting the
  forward-then-backward outline of the points sideways by half the width;
- a **ribbon** made of each point and a copy raised along z;
- a **triangle tube**: a triangular cross-section around every point, joined by strips.

`MeshUtils` supplies these helpers:

- the face-array helpers `buildFaces`, `buildBoundFaces` and `revertFaces`;
- the path offsetter `offset`, with `openOffset` and `closeOffset`;
- the orientation test `clockwise3D`.

Layout:

- `wrappers.dfy` (module `Wrappers`) holds `Option` and `Result`.
- `faces.dfy` (module `Faces`) holds `buildFaces`, `buildBoundFaces` and `revertFaces`. It also holds the face-array vocabulary: pairs, triangles, flipping and index ranges.
- `offset.dfy` (module `Offset`) holds `offset`, `openOffset` and `closeOffset`.
- `orientation.dfy` (module `Orientation`) holds `clockwise3D` and its relation to the shoelace signed area.
- `polyline.dfy` (module `PolyLine`) holds:
  - the three builders;
  - the constructors;
  - `setPoints` and `setWidth`;
  - the object state (`points`, `width`, `mesh`).

Modelling choices:

- **Numbers.** Java `float` and `double` values are exact `real`s. A Java `int`
  sum that may overflow (`v + vertexOffset` in `buildFaces`) goes through
  `Faces.Wrap32`, which does two's-complement wrap-around.
- **Normalisation.** Dividing a direction by its length (`Math.sqrt`) is the
  parameter `unit: Vec2 -> Vec2`.
- **Zero-length test.** The guard "length below `Double.MIN_VALUE`" is the exact test
  `a == 0 && b == 0` (`Offset.IsZero`).
- **Triangulation.** The triangulator `Earcut.earcut` is the parameter
  `earcut: seq<real> -> seq<int>`.
- **Mesh state.** A `PolyLine3D` is an immutable value. A builder is a function from
  the old mesh to the new one, and a null point list is `None`.
- **The Java loops.** Each one is modelled twice. One copy is a method that follows the
  loop. The other is a functional definition that the method is proved to
  compute: `RevertFacesLoop`, `OpenOffsetLoop`, `CloseOffsetLoop`,
  `BoundaryCoords`, `RibbonVertices`, `RibbonFaceList`, `TubeVertices` and
  `TubeFaceList`. Two of them carry the corrections listed under "## Findings":
  `OpenOffsetLoop` handles a zero-length first edge as `closeOffset` does,
  and `TubeVertices` writes the third corner of each cross-section without
  the stray y shift.

Where the code and its informal description disagree, the model follows the code
(the two corrections under "## Findings" are the only places where it does not
follow the code):

- **Centre ribbon.** With fewer than two points `buildCenterRibbon` returns and
  leaves the mesh as it was; it does not clear it.
- **`revertFaces`.** On an array whose length is not a multiple of six,
  `revertFaces` does not fail. It leaves the trailing partial group as zeros.

## Model

| member | source | states |
|---|---|---|
| Faces.Wrap32 | FXyz-Core/src/main/java/org/fxyz3d/utils/MeshUtils.java:149 | the Java `int` sum is an int congruent to the exact sum modulo 2^32, and equals it when the exact sum fits |
| Faces.BuildFaces | FXyz-Core/src/main/java/org/fxyz3d/utils/MeshUtils.java:144-155 | the face array has two ints per input index |
| Faces.BuildFacesSlots | FXyz-Core/src/main/java/org/fxyz3d/utils/MeshUtils.java:144-155 | pair k of the result is (index k plus the offset as a Java int, texture index 0), for every k |
| Faces.BuildFacesInRange | FXyz-Core/src/main/java/org/fxyz3d/utils/MeshUtils.java:144-155 | indices in [0, m), with offset + m inside the int range, give vertex slots exactly index + offset in [offset, offset + m) and every texture slot 0 |
| Faces.BuildBoundFaces | FXyz-Core/src/main/java/org/fxyz3d/utils/MeshUtils.java:139-142 | the result is buildFaces of the triangulator's index list: twice its length, pair k holding index k shifted by the offset |
| Faces.BoundFacesInRange | FXyz-Core/src/main/java/org/fxyz3d/utils/MeshUtils.java:139-142 | a triangulation indexing m vertices yields faces indexing [offset, offset + m) |
| Faces.RevertFaces | FXyz-Core/src/main/java/org/fxyz3d/utils/MeshUtils.java:157-168 | the flipped array has the input's length |
| Faces.RevertFacesSlots | FXyz-Core/src/main/java/org/fxyz3d/utils/MeshUtils.java:157-168 | in every whole group of six the first pair is kept and the second and third are exchanged; the slots of a trailing partial group are 0 |
| Faces.RevertFacesAppend | FXyz-Core/src/main/java/org/fxyz3d/utils/MeshUtils.java:159 | flipping works group by group: flipping a concatenation at a group boundary concatenates the flips |
| Faces.RevertFacesLoop | FXyz-Core/src/main/java/org/fxyz3d/utils/MeshUtils.java:157-168 | the Java loop over i = 0, 6, ... while i < length - 5 computes the flipped array |
| Faces.RevertFacesTwice | FXyz-Core/src/main/java/org/fxyz3d/utils/MeshUtils.java:157-168 | flipping twice gives back every whole triangle and zeros in place of a trailing partial group |
| Faces.RevertFacesInvolution | FXyz-Core/src/main/java/org/fxyz3d/utils/MeshUtils.java:157-168 | on whole triangles flipping is an involution |
| Faces.RevertFacesFlips | FXyz-Core/src/main/java/org/fxyz3d/utils/MeshUtils.java:160-165 | triangle g of the result is triangle g with its last two corners swapped (reversed winding); a well-indexed array stays well indexed |
| Offset.TrackIsLatestEdge | FXyz-Core/src/main/java/org/fxyz3d/utils/MeshUtils.java:276-286 | the direction in force after edge k is the unit vector of the latest edge of non-zero length: a zero-length edge reuses the previous direction |
| Offset.TrackBeforeAnyEdge | FXyz-Core/src/main/java/org/fxyz3d/utils/MeshUtils.java:276-286 | while every edge so far has zero length the initial direction is kept |
| Offset.OpenOffsetSpec | FXyz-Core/src/main/java/org/fxyz3d/utils/MeshUtils.java:249-309 | the open offset has the input's length; its first and last points are moved perpendicular to the first and the last direction; each interior point follows the joint rule between its two directions (perpendicular fallback when the cross product is below SMALL, line intersection otherwise); z is unchanged |
| Offset.OpenOffsetLoop | FXyz-Core/src/main/java/org/fxyz3d/utils/MeshUtils.java:249-309 | the Java loop (first point, i = 3, 6, ... while i < n - 4, last point) computes the open offset |
| Offset.IsOpenOffsetUnique | FXyz-Core/src/main/java/org/fxyz3d/utils/MeshUtils.java:249-309 | the open-offset rules determine the output completely |
| Offset.OpenOffsetEnds | FXyz-Core/src/main/java/org/fxyz3d/utils/MeshUtils.java:265-306 | in an open offset point 0 is moved perpendicular to a non-zero first edge, and the last point perpendicular to the latest edge of non-zero length, however many zero-length edges follow it |
| Offset.CloseOffsetSpec | FXyz-Core/src/main/java/org/fxyz3d/utils/MeshUtils.java:177-247 | the closed offset has the input's length; every point follows the joint rule, point 0 between the closing edge and edge 0 and the last point between its edge and the closing edge; z is unchanged |
| Offset.CloseOffsetLoop | FXyz-Core/src/main/java/org/fxyz3d/utils/MeshUtils.java:177-247 | the Java loop (i = 0, 3, ... while i < n - 4, then the last point against the saved closing direction) computes the closed offset |
| Offset.IsCloseOffsetUnique | FXyz-Core/src/main/java/org/fxyz3d/utils/MeshUtils.java:177-247 | the closed-offset rules determine the output completely |
| Offset.JoinStraight | FXyz-Core/src/main/java/org/fxyz3d/utils/MeshUtils.java:288-294 | where the direction does not change, the cross product 0 is below SMALL and the point moves perpendicular to it |
| Offset.JoinFoldBack | FXyz-Core/src/main/java/org/fxyz3d/utils/MeshUtils.java:288-294 | where the path doubles back, the point moves perpendicular to the new, reversed direction, to the other side |
| Offset.JoinAtZeroDistance | FXyz-Core/src/main/java/org/fxyz3d/utils/MeshUtils.java:288-300 | with distance 0 either branch of the joint rule leaves the point where it is |
| Offset.IsOpenOffsetZeroWidth | FXyz-Core/src/main/java/org/fxyz3d/utils/MeshUtils.java:249-309 | an open offset by distance 0 is the input |
| Offset.IsCloseOffsetZeroWidth | FXyz-Core/src/main/java/org/fxyz3d/utils/MeshUtils.java:177-247 | a closed offset by distance 0 is the input |
| Offset.OpenOffset | FXyz-Core/src/main/java/org/fxyz3d/utils/MeshUtils.java:249-309 | the open offset keeps the buffer's length; what each point holds is stated by OpenOffsetSpec |
| Offset.CloseOffset | FXyz-Core/src/main/java/org/fxyz3d/utils/MeshUtils.java:177-247 | the closed offset keeps the buffer's length; what each point holds is stated by CloseOffsetSpec |
| Offset.Offset | FXyz-Core/src/main/java/org/fxyz3d/utils/MeshUtils.java:170-175 | the offset keeps the buffer's length |
| Offset.OffsetSpec | FXyz-Core/src/main/java/org/fxyz3d/utils/MeshUtils.java:170-175 | `offset` gives a closed offset when `close` holds and an open one otherwise |
| Offset.OffsetZeroWidth | FXyz-Core/src/main/java/org/fxyz3d/utils/MeshUtils.java:170-175 | offsetting by 0 returns the input in both modes |
| Offset.OpenFirstDirAsWritten | FXyz-Core/src/main/java/org/fxyz3d/utils/MeshUtils.java:255-263 | as written, the first direction is undefined (a division by 0.0f) exactly when the first edge has zero length, and is the edge's unit vector otherwise |
| Offset.OpenFirstDirNaN | FXyz-Core/src/main/java/org/fxyz3d/utils/MeshUtils.java:255-300 | for the points (0,0,0), (0,0,0), (1,0,0) the first direction as written is undefined (0/0) and so are points 0 and 1, while point 2 is the model's; the model's direction is (0, 0) and its point 0 stays at the origin |
| Offset.OpenDirAsWrittenAgrees | FXyz-Core/src/main/java/org/fxyz3d/utils/MeshUtils.java:255-286 | as written, the direction held after edge k is NaN exactly when edges 0..k all have zero length, and otherwise equals the model's direction |
| Offset.OpenNaNExtent | FXyz-Core/src/main/java/org/fxyz3d/utils/MeshUtils.java:255-306 | with j the first edge of non-zero length, openOffset as written gives NaN exactly for points 0..j when j > 0, and for none when j = 0, whatever the distance; every other point equals the model's |
| Offset.OpenAllZeroNaN | FXyz-Core/src/main/java/org/fxyz3d/utils/MeshUtils.java:255-306 | when every edge has zero length, openOffset as written gives NaN for every point |
| Offset.OpenOffsetZeroFirstEdge | FXyz-Core/src/main/java/org/fxyz3d/utils/MeshUtils.java:255-267 | when the first edge has zero length the first point of the open offset is the first input point |
| Orientation.Clockwise3D | FXyz-Core/src/main/java/org/fxyz3d/utils/MeshUtils.java:312-323 | the answer is -1 exactly when the accumulated edge sum (loop terms plus the closing edge) is positive, and 1 otherwise, a zero sum included |
| Orientation.EdgeSumShoelace | FXyz-Core/src/main/java/org/fxyz3d/utils/MeshUtils.java:315-317 | the loop's partial sums equal a telescoping term minus the shoelace partial sums |
| Orientation.WindingSumIsMinusTwiceArea | FXyz-Core/src/main/java/org/fxyz3d/utils/MeshUtils.java:312-323 | the accumulated sum is minus twice the signed area of the polygon, so -1 means clockwise in the x,y plane |
| Orientation.WindingSumReversed | FXyz-Core/src/main/java/org/fxyz3d/utils/MeshUtils.java:312-323 | listing the points in the opposite order negates the accumulated sum |
| Orientation.ReversalFlipsOrientation | FXyz-Core/src/main/java/org/fxyz3d/utils/MeshUtils.java:320-322 | a polygon with a non-zero sum and its reversal get opposite answers |
| PolyLine.Boundary | FXyz-Core/src/main/java/org/fxyz3d/shapes/primitives/PolyLine3D.java:156-174 | the outline holds 6n coordinates: point k at vertex k and again at vertex 2n-1-k |
| PolyLine.OutlineUnique | FXyz-Core/src/main/java/org/fxyz3d/shapes/primitives/PolyLine3D.java:156-174 | only one buffer holds the points forward then backward |
| PolyLine.BoundaryCoords | FXyz-Core/src/main/java/org/fxyz3d/shapes/primitives/PolyLine3D.java:156-174 | the forward and backward loops filling the 6n-float buffer produce the outline |
| PolyLine.BuildCenterRibbon | FXyz-Core/src/main/java/org/fxyz3d/shapes/primitives/PolyLine3D.java:146-188 | a null list or fewer than two points leaves the mesh unchanged; otherwise 6n vertex coordinates, texture coordinates (0, 0), twice the triangulator's indices as front and back faces, and one smoothing group 0 per triangle |
| PolyLine.CenterRibbonLayout | FXyz-Core/src/main/java/org/fxyz3d/shapes/primitives/PolyLine3D.java:176-183 | the vertices are the open offset of the outline by width/2 with sign 1, and the front faces pair each triangulator index with texture 0 |
| PolyLine.CenterRibbonInRange | FXyz-Core/src/main/java/org/fxyz3d/shapes/primitives/PolyLine3D.java:178-184 | a triangulation of the vertices gives faces indexing only the 2n ribbon vertices |
| PolyLine.TwoSidedFaces | FXyz-Core/src/main/java/org/fxyz3d/shapes/primitives/PolyLine3D.java:180-184 | the two-sided face list holds four ints per triangulator index: the front faces and as many back faces |
| PolyLine.TwoSidedInRange | FXyz-Core/src/main/java/org/fxyz3d/shapes/primitives/PolyLine3D.java:180-184 | when the triangulator indexes only the given vertices, front and back faces index only those vertices |
| PolyLine.TwoSidedBack | FXyz-Core/src/main/java/org/fxyz3d/shapes/primitives/PolyLine3D.java:180-184 | the second half of the face list repeats each front triangle with its last two corners swapped |
| PolyLine.CenterRibbonBackFaces | FXyz-Core/src/main/java/org/fxyz3d/shapes/primitives/PolyLine3D.java:180-184 | the faces are the front triangles followed by the same triangles with reversed winding |
| PolyLine.CenterRibbonZeroWidth | FXyz-Core/src/main/java/org/fxyz3d/shapes/primitives/PolyLine3D.java:156-178 | a ribbon of width 0 has the outline itself as its vertices |
| PolyLine.OutlineStartSpans | FXyz-Core/src/main/java/org/fxyz3d/shapes/primitives/PolyLine3D.java:176 | in an open offset of the outline by t, the two vertices of the first point lie at distance t to the left and to the right of the first segment's direction (t is width/2 in the ribbon) |
| PolyLine.OutlineEndSpans | FXyz-Core/src/main/java/org/fxyz3d/shapes/primitives/PolyLine3D.java:176 | in an open offset of the outline by t, the two vertices of the last point lie at distance t to the left and to the right of the last segment's direction |
| PolyLine.RibbonPoints | FXyz-Core/src/main/java/org/fxyz3d/shapes/primitives/PolyLine3D.java:126-130 | six coordinates per point; the layout is stated by RibbonPointsLayout |
| PolyLine.RibbonPointsLayout | FXyz-Core/src/main/java/org/fxyz3d/shapes/primitives/PolyLine3D.java:127-130 | vertex 2k is point k and vertex 2k+1 is point k raised by the width along z |
| PolyLine.RibbonVertices | FXyz-Core/src/main/java/org/fxyz3d/shapes/primitives/PolyLine3D.java:126-130 | the Java loop computes the ribbon's vertex coordinates |
| PolyLine.RibbonFacesShape | FXyz-Core/src/main/java/org/fxyz3d/shapes/primitives/PolyLine3D.java:135-144 | 24(n-1) face ints indexing only the 2n vertices; in each segment the two back triangles are the two front ones listed back to front, so they face the other way |
| PolyLine.RibbonFaceList | FXyz-Core/src/main/java/org/fxyz3d/shapes/primitives/PolyLine3D.java:134-144 | the Java loop over i = 2, 4, ... while i < 2n computes the ribbon's faces |
| PolyLine.BuildRibbon | FXyz-Core/src/main/java/org/fxyz3d/shapes/primitives/PolyLine3D.java:121-145 | a null list leaves the mesh unchanged; otherwise two vertices per point, texture coordinates (0, 0), faces in range, and the smoothing groups untouched |
| PolyLine.RingAsWrittenIsLopsided | FXyz-Core/src/main/java/org/fxyz3d/shapes/primitives/PolyLine3D.java:90-99 | the corners as written do not form an equilateral triangle: two sides differ by h^2 in squared length, and the centre of the three corners sits h/6 off the point along y |
| PolyLine.RingIsEquilateral | FXyz-Core/src/main/java/org/fxyz3d/shapes/primitives/PolyLine3D.java:90-97 | the corrected corners form an isosceles triangle with base h whose two other sides differ from h only through the rounding of the six-digit constants (squared, by 0.000000699375 h^2), centred on the point in the x,y plane |
| PolyLine.TubePoints | FXyz-Core/src/main/java/org/fxyz3d/shapes/primitives/PolyLine3D.java:92-99 | nine coordinates per point; the rings are stated by TubePointsRings |
| PolyLine.TubePointsRings | FXyz-Core/src/main/java/org/fxyz3d/shapes/primitives/PolyLine3D.java:92-99 | vertices 3k, 3k+1 and 3k+2 are the three cross-section corners of point k |
| PolyLine.TubeVertices | FXyz-Core/src/main/java/org/fxyz3d/shapes/primitives/PolyLine3D.java:92-99 | the loop over the points computes the tube's vertex coordinates, with the corrected third corner |
| PolyLine.TubeSidesBridge | FXyz-Core/src/main/java/org/fxyz3d/shapes/primitives/PolyLine3D.java:105-116 | every side triangle of segment s joins ring s-1 to ring s, with a corner on each |
| PolyLine.TubeFacesShape | FXyz-Core/src/main/java/org/fxyz3d/shapes/primitives/PolyLine3D.java:102-119 | 2 + 6(n-1) triangles: the start cap (0, 1, 2), side triangles bridging consecutive rings, the end cap reversed on the last ring; indices in [0, 3n) for n >= 1, and the end cap (-1, -2, -3) for no points |
| PolyLine.TubeFaceList | FXyz-Core/src/main/java/org/fxyz3d/shapes/primitives/PolyLine3D.java:102-119 | the Java loop over i = 3, 6, ... while i < 3n, with both caps, computes the tube's faces |
| PolyLine.BuildTriangleTube | FXyz-Core/src/main/java/org/fxyz3d/shapes/primitives/PolyLine3D.java:89-120 | a null list fails (the for-each loop dereferences it); otherwise three ring vertices per point, one texture coordinate pair and 12 + 36(n-1) face ints are appended to what the mesh held, the new faces index vertices [0, 3n), which are the new ring vertices when the mesh starts empty, as it does in the constructor, and the smoothing groups are untouched |
| PolyLine.Create | FXyz-Core/src/main/java/org/fxyz3d/shapes/primitives/PolyLine3D.java:60-77 | the constructor keeps the points and width and builds a fresh mesh in the chosen style; among the three line types, only a tube over a null list fails, and a centre ribbon of fewer than two points leaves the mesh empty |
| PolyLine.CreateDefault | FXyz-Core/src/main/java/org/fxyz3d/shapes/primitives/PolyLine3D.java:51-53 | the no-argument constructor has no points, width 1 and an empty mesh |
| PolyLine.CreateWithWidth | FXyz-Core/src/main/java/org/fxyz3d/shapes/primitives/PolyLine3D.java:55-57 | the two-argument constructor never fails, builds a centre ribbon, and leaves the mesh empty for fewer than two points |
| PolyLine.CreateWithWidthOffsets | FXyz-Core/src/main/java/org/fxyz3d/shapes/primitives/PolyLine3D.java:55-57 | its vertices are the open offset of the outline by width/2 |
| PolyLine.SetPoints | FXyz-Core/src/main/java/org/fxyz3d/shapes/primitives/PolyLine3D.java:79-82 | the new points are kept and the mesh is rebuilt as a centre ribbon, or left alone for fewer than two points |
| PolyLine.SetWidth | FXyz-Core/src/main/java/org/fxyz3d/shapes/primitives/PolyLine3D.java:84-87 | the new width is kept and the mesh is rebuilt as a centre ribbon, or left alone for fewer than two points |
| PolyLine.SetWidthRebuildsAsCenterRibbon | FXyz-Core/src/main/java/org/fxyz3d/shapes/primitives/PolyLine3D.java:84-87 | whatever style a line was created with, setting its width gives the centre-ribbon line |

## Left out

- `mesh2CSG` and `mesh2STL` are not modelled: one is a conversion to another library's solid type, the other file output.
- `Earcut.earcut` is not part of this model. The triangulator is a parameter. The only thing assumed of it, where a lemma needs it, is that it returns whole triangles indexing existing vertices (`PolyLine.Triangulates`).
- Float rounding and `Math.sqrt` are not modelled: coordinates are exact reals and normalisation is the parameter `unit`.
- The test "length below `Double.MIN_VALUE`" is modelled as a length of exactly zero. A float length can be non-zero yet below that bound only through underflow.
- The float products and sums of `clockwise3D` (float products accumulated in a double) are exact in the model.
- JavaFX itself is left out: `setMesh`, `setCullFace(CullFace.BACK)`, rendering and the observable arrays are not modelled. The mesh is four plain sequences.
- Java `int` overflow of `size * 6`, `size * 3` and the face-index arithmetic in `PolyLine3D` is not modelled. Index bounds are stated for meshes whose sizes fit an int.
- Offset.OpenOffsetLoop: only buffers of whole points (length a multiple of three) with at least two points are modelled. In the source a length below 5 throws `ArrayIndexOutOfBoundsException`, because it reads `coords[3]` and `coords[4]`. A length of 5, 7, 8, 10 and so on stays in bounds. The last point is then written at slots n-3..n-1, off the loop's stride of three, so one slot is overwritten or left 0.
- Offset.CloseOffsetLoop: only buffers of whole points with at least one point are modelled. In the source a length below 3 throws, because it reads `coords[n - 3]`. A length of 4, 5, 7 and so on stays in bounds, with the same misaligned last point.
- Offset.OpenOffsetLoop: on a zero-length first edge it computes the corrected direction (0, 0), not the source's NaN (see Findings). By Offset.OpenNaNExtent it differs from the source only at the points the source leaves NaN.
- OpenOffsetSpec: its first direction is the corrected one, so on a zero-length first edge it describes finite points where the source gives NaN for points 0..j (j being the first edge of non-zero length). Everywhere else it agrees with the source (Offset.OpenNaNExtent).
- IsOpenOffsetZeroWidth: the corrected offset by distance 0 is the input. The source at distance 0 still gives NaN for points 0..j when the first edge has zero length, because 0 * NaN is NaN.
- OffsetSpec: in open mode it inherits the corrected first direction of OpenOffsetSpec.
- OffsetZeroWidth: in open mode it inherits the corrected first direction, so it does not hold for the source when the first edge has zero length.
- CenterRibbonLayout: its vertices are the corrected open offset. When the first two points coincide the source's first vertices are NaN instead (Offset.OpenNaNExtent).
- CenterRibbonZeroWidth: with coinciding first points the source's zero-width ribbon has NaN vertices, not the outline. The model's corrected offset gives the outline.
- CreateWithWidthOffsets: its vertices are the corrected open offset, which differs from the source when the first two points coincide.
- Orientation.Clockwise3D: fewer than three coordinates throw `ArrayIndexOutOfBoundsException` in the source (`coords[length - 3]`). The precondition excludes them.
- TubePointsRings: its rings use the corrected third corner (y offset 0), not the `y + 0.5f*half` of the source (see Findings).
- TubeVertices: the loop writes the corrected third corner, not the source's `y + 0.5f*half`.
- PolyLine.BuildTriangleTube: the third corner of every cross-section is the corrected one (see Findings). The +0.5h shift along y as written is modelled separately by `PolyLine.RingVertexAsWritten` and examined by `PolyLine.RingAsWrittenIsLopsided`.
- PolyLine.BuildCenterRibbon: the contract gives sizes and the smoothing groups. The vertex and face contents are stated by `CenterRibbonLayout` and `CenterRibbonBackFaces`, which share its source lines.
- PolyLine.Create: a null lineType, which throws NullPointerException at the switch (FXyz-Core/src/main/java/org/fxyz3d/shapes/primitives/PolyLine3D.java:65), is not modelled: the line type is a datatype with exactly the three styles.
- PolyLine.CreateWithWidth: the offset property of its vertices is stated by the separate lemma `CreateWithWidthOffsets`.
- PolyLine.OutlineStartSpans: stated for a first segment of non-zero length, with a normalisation that maps the reversed segment to the reversed direction. The same holds for PolyLine.OutlineEndSpans and the last segment.
- Faces.BuildFacesInRange: the exact-sum statement needs `offset + m` to fit an int. Beyond that `Faces.BuildFacesSlots` gives the wrapped value.

## Findings

| source | as written | input that shows it | evidently intended | confidence | as-written member | corrected member |
|---|---|---|---|---|---|---|
| FXyz-Core/src/main/java/org/fxyz3d/utils/MeshUtils.java:259-263 | a zero-length first edge sets `d = (float) Double.MIN_VALUE`, which rounds to 0.0f, then divides `a` and `b` (both 0) by it, so the first direction is NaN. A zero-length edge keeps the previous direction, so the NaN lasts until the first edge j of non-zero length. Points 0..j are NaN: point 0 through the perpendicular move, points 1..j because a NaN cross product fails the `< SMALL` test and the point is divided by NaN. When every edge has zero length, every point is NaN. This happens at any width, 0 included | points (0,0,0), (0,0,0), (1,0,0): points 0 and 1 are NaN | a usable divisor, as `closeOffset` uses 1 at lines 187-188, giving direction (0, 0) and leaving point 0 in place | not executed | Offset.OpenFirstDirNaN | Offset.OpenOffsetZeroFirstEdge |
| FXyz-Core/src/main/java/org/fxyz3d/shapes/primitives/PolyLine3D.java:98 | the third corner of the tube's cross-section is written at `point.y + 0.5f*half`, while the comment on line 97 gives its y offset as 0 | any point and width w != 0: the squared sides from the third corner differ by (w/2)^2 | y offset 0, which makes the cross-section equilateral with side w/2 up to the rounding of its constants | not executed | PolyLine.RingAsWrittenIsLopsided | PolyLine.RingIsEquilateral |
