/** The parallel-curve offsetter of MeshUtils (openOffset, closeOffset and
    the `offset` dispatch), over exact reals.

    A coordinate buffer holds x, y, z per point; point k occupies slots
    3k, 3k+1, 3k+2. Offsetting works in the x,y plane and carries z through.
    Normalising an edge to unit length needs a square root, so the unit
    direction of a non-zero edge is the parameter `unit`. */
module Offset {
  import opened Wrappers

  /** MeshUtils.SMALL: below this |cross| a joint counts as straight or folded back. */
  const SMALL: real := 0.1

  /** A 2D direction (a, b). */
  datatype Vec2 = Vec2(a: real, b: real)

  const Zero: Vec2 := Vec2(0.0, 0.0)

  function Abs(x: real): real {
    if x < 0.0 then -x else x
  }

  function Neg(v: Vec2): Vec2 {
    Vec2(-v.a, -v.b)
  }

  /** The 2D cross product A*b - a*B of incoming (A,B) and outgoing (a,b). */
  function Cross(prev: Vec2, next: Vec2): real {
    prev.a * next.b - next.a * prev.b
  }

  /** A zero-length edge: the source's `d < Double.MIN_VALUE` test. */
  predicate IsZero(v: Vec2) {
    v.a == 0.0 && v.b == 0.0
  }

  /** True iff c holds whole points. */
  predicate IsBuffer(c: seq<real>) {
    |c| % 3 == 0
  }

  /** Number of points of a buffer. */
  function Count(c: seq<real>): nat {
    |c| / 3
  }

  /** The raw x,y difference from point k to point k+1. */
  function Edge(c: seq<real>, k: nat): Vec2
    requires 3 * k + 4 < |c|
  {
    Vec2(c[3 * k + 3] - c[3 * k], c[3 * k + 4] - c[3 * k + 1])
  }

  /** The raw x,y difference from the last point back to point 0. */
  function ClosingEdge(c: seq<real>): Vec2
    requires |c| >= 3
  {
    Vec2(c[0] - c[|c| - 3], c[1] - c[|c| - 2])
  }

  /** An edge divided by its length, a zero-length edge staying (0, 0). */
  function Normalize(unit: Vec2 -> Vec2, v: Vec2): Vec2 {
    if IsZero(v) then Zero else unit(v)
  }

  /** The unit direction in force once edge k has been read: a zero-length
      edge keeps the previous direction, which before edge 0 is `init`. */
  function Track(c: seq<real>, unit: Vec2 -> Vec2, init: Vec2, k: nat): Vec2
    requires 3 * k + 4 < |c|
    decreases k
  {
    var prev := if k == 0 then init else Track(c, unit, init, k - 1);
    if IsZero(Edge(c, k)) then prev else unit(Edge(c, k))
  }

  /** The direction in force at edge k is that of the latest non-zero edge
      j <= k, or `init` when edges 0..k all have zero length. */
  lemma {:induction false} TrackIsLatestEdge(c: seq<real>, unit: Vec2 -> Vec2, init: Vec2, k: nat, j: nat)
    requires 3 * k + 4 < |c| && j <= k
    requires !IsZero(Edge(c, j))
    requires forall i :: j < i <= k ==> IsZero(Edge(c, i))
    ensures Track(c, unit, init, k) == unit(Edge(c, j))
    decreases k
  {
    if k > j {
      TrackIsLatestEdge(c, unit, init, k - 1, j);
    }
  }

  /** Before any edge of non-zero length the direction is still `init`. */
  lemma {:induction false} TrackBeforeAnyEdge(c: seq<real>, unit: Vec2 -> Vec2, init: Vec2, k: nat)
    requires 3 * k + 4 < |c|
    requires forall i :: 0 <= i <= k ==> IsZero(Edge(c, i))
    ensures Track(c, unit, init, k) == init
    decreases k
  {
    if k > 0 {
      TrackBeforeAnyEdge(c, unit, init, k - 1);
    }
  }

  // ---------------------------------------------------------------------
  // What an offset buffer is, point by point.
  // ---------------------------------------------------------------------

  /** Point k of `out` is point k of `c` moved by t*sign along the left
      normal (-b, a) of direction d, z unchanged: the rule for path ends and
      for degenerate joints. */
  predicate PerpAt(out: seq<real>, c: seq<real>, k: nat, d: Vec2, t: real, sign: int)
    requires 3 * k + 2 < |out| && 3 * k + 2 < |c|
  {
    && out[3 * k] == c[3 * k] - t * d.b * (sign as real)
    && out[3 * k + 1] == c[3 * k + 1] + t * d.a * (sign as real)
    && out[3 * k + 2] == c[3 * k + 2]
  }

  /** Point k of `out` is point k of `c` moved by the joint rule for
      incoming direction prev = (A,B) and outgoing direction next = (a,b):
      if |A*b - a*B| < SMALL the perpendicular fallback for next, otherwise
      the intersection of the two offset lines. */
  predicate JoinAt(out: seq<real>, c: seq<real>, k: nat, prev: Vec2, next: Vec2, t: real, sign: int)
    requires 3 * k + 2 < |out| && 3 * k + 2 < |c|
  {
    var cross := Cross(prev, next);
    && (Abs(cross) < SMALL ==> PerpAt(out, c, k, next, t, sign))
    && (Abs(cross) >= SMALL ==>
          && out[3 * k] == c[3 * k] + (sign as real) * t * (next.a - prev.a) / cross
          && out[3 * k + 1] == c[3 * k + 1] + (sign as real) * t * (next.b - prev.b) / cross
          && out[3 * k + 2] == c[3 * k + 2])
  }

  /** Interior point k of an open offset follows the joint rule between the
      directions in force after edges k-1 and k. */
  predicate OpenJointAt(c: seq<real>, out: seq<real>, unit: Vec2 -> Vec2, t: real, sign: int, k: nat)
    requires 1 <= k && 3 * k + 4 < |c| && 3 * k + 2 < |out|
  {
    JoinAt(out, c, k, Track(c, unit, Zero, k - 1), Track(c, unit, Zero, k), t, sign)
  }

  /** What openOffset promises: same length; point 0 offset perpendicular to
      the first edge; interior points 1..m-2 by the joint rule between their
      two edges; the last point perpendicular to the last edge direction. */
  predicate IsOpenOffset(c: seq<real>, out: seq<real>, unit: Vec2 -> Vec2, t: real, sign: int)
    requires IsBuffer(c) && |c| >= 6
  {
    var m := Count(c);
    && |out| == |c|
    && PerpAt(out, c, 0, Normalize(unit, Edge(c, 0)), t, sign)
    && (forall k :: 1 <= k < m - 1 ==> OpenJointAt(c, out, unit, t, sign, k))
    && PerpAt(out, c, m - 1, Track(c, unit, Zero, m - 2), t, sign)
  }

  /** The incoming direction of point k in closed mode: the closing edge for
      point 0, else the direction in force after edge k-1. */
  function ClosedPrev(c: seq<real>, unit: Vec2 -> Vec2, k: nat): Vec2
    requires |c| >= 3 && 3 * k + 1 < |c|
  {
    var init := Normalize(unit, ClosingEdge(c));
    if k == 0 then init else Track(c, unit, init, k - 1)
  }

  /** Point k (not the last) of a closed offset follows the joint rule
      between the direction in force before it and the one after edge k. */
  predicate CloseJointAt(c: seq<real>, out: seq<real>, unit: Vec2 -> Vec2, t: real, sign: int, k: nat)
    requires 3 <= |c| && 3 * k + 4 < |c| && 3 * k + 2 < |out|
  {
    JoinAt(out, c, k, ClosedPrev(c, unit, k), Track(c, unit, Normalize(unit, ClosingEdge(c)), k), t, sign)
  }

  /** What closeOffset promises: same length; every point, the first and the
      last included, by the joint rule, the closing edge serving as the edge
      into point 0 and out of the last point. */
  predicate IsCloseOffset(c: seq<real>, out: seq<real>, unit: Vec2 -> Vec2, t: real, sign: int)
    requires IsBuffer(c) && |c| >= 3
  {
    var m := Count(c);
    var init := Normalize(unit, ClosingEdge(c));
    && |out| == |c|
    && (forall k :: 0 <= k < m - 1 ==> CloseJointAt(c, out, unit, t, sign, k))
    && JoinAt(out, c, m - 1, ClosedPrev(c, unit, m - 1), init, t, sign)
  }

  // ---------------------------------------------------------------------
  // The offset buffers, computed.
  // ---------------------------------------------------------------------

  /** The three coordinates of point k moved along the left normal of d. */
  function Perp(c: seq<real>, k: nat, d: Vec2, t: real, sign: int): (p: seq<real>)
    requires 3 * k + 2 < |c|
    ensures |p| == 3
  {
    var s := sign as real;
    [c[3 * k] - t * d.b * s, c[3 * k + 1] + t * d.a * s, c[3 * k + 2]]
  }

  /** The three coordinates of point k moved by the joint rule. */
  function Join(c: seq<real>, k: nat, prev: Vec2, next: Vec2, t: real, sign: int): (p: seq<real>)
    requires 3 * k + 2 < |c|
    ensures |p| == 3
  {
    var s := sign as real;
    var cross := Cross(prev, next);
    if Abs(cross) < SMALL then Perp(c, k, next, t, sign)
    else [c[3 * k] + s * t * (next.a - prev.a) / cross,
          c[3 * k + 1] + s * t * (next.b - prev.b) / cross,
          c[3 * k + 2]]
  }

  /** Point k of `out` holds the three coordinates p. */
  predicate PointIs(out: seq<real>, k: nat, p: seq<real>)
    requires 3 * k + 2 < |out| && |p| == 3
  {
    out[3 * k] == p[0] && out[3 * k + 1] == p[1] && out[3 * k + 2] == p[2]
  }

  function OpenPoint(c: seq<real>, unit: Vec2 -> Vec2, t: real, sign: int, k: nat): (p: seq<real>)
    requires IsBuffer(c) && |c| >= 6 && k < Count(c)
    ensures |p| == 3
  {
    var m := Count(c);
    if k == 0 then Perp(c, 0, Track(c, unit, Zero, 0), t, sign)
    else if k < m - 1 then Join(c, k, Track(c, unit, Zero, k - 1), Track(c, unit, Zero, k), t, sign)
    else Perp(c, k, Track(c, unit, Zero, m - 2), t, sign)
  }

  /** MeshUtils.openOffset: the path's two ends are not joined to each other. */
  function OpenOffset(c: seq<real>, t: real, sign: int, unit: Vec2 -> Vec2): (out: seq<real>)
    requires IsBuffer(c) && |c| >= 6
    ensures |out| == |c|
  {
    OpenPrefix(c, t, sign, unit, Count(c))
  }

  /** The open offset of the first q points. */
  function OpenPrefix(c: seq<real>, t: real, sign: int, unit: Vec2 -> Vec2, q: nat): (out: seq<real>)
    requires IsBuffer(c) && |c| >= 6 && q <= Count(c)
    ensures |out| == 3 * q
    decreases q
  {
    if q == 0 then [] else OpenPrefix(c, t, sign, unit, q - 1) + OpenPoint(c, unit, t, sign, q - 1)
  }

  lemma {:induction false} OpenPrefixAt(c: seq<real>, t: real, sign: int, unit: Vec2 -> Vec2, q: nat, k: nat)
    requires IsBuffer(c) && |c| >= 6 && k < q <= Count(c)
    ensures PointIs(OpenPrefix(c, t, sign, unit, q), k, OpenPoint(c, unit, t, sign, k))
    decreases q
  {
    var a := OpenPrefix(c, t, sign, unit, q - 1);
    assert OpenPrefix(c, t, sign, unit, q) == a + OpenPoint(c, unit, t, sign, q - 1);
    if k < q - 1 {
      OpenPrefixAt(c, t, sign, unit, q - 1, k);
    }
  }

  /** openOffset moves every point by the open-mode rules and keeps every
      z coordinate. */
  lemma OpenOffsetSpec(c: seq<real>, t: real, sign: int, unit: Vec2 -> Vec2)
    requires IsBuffer(c) && |c| >= 6
    ensures IsOpenOffset(c, OpenOffset(c, t, sign, unit), unit, t, sign)
    ensures forall k :: 0 <= k < Count(c) ==> OpenOffset(c, t, sign, unit)[3 * k + 2] == c[3 * k + 2]
  {
    forall k | 0 <= k < Count(c)
      ensures PointIs(OpenOffset(c, t, sign, unit), k, OpenPoint(c, unit, t, sign, k))
    {
      OpenPrefixAt(c, t, sign, unit, Count(c), k);
    }
    OpenOffsetMeets(c, t, sign, unit, OpenOffset(c, t, sign, unit));
  }

  function ClosePoint(c: seq<real>, unit: Vec2 -> Vec2, t: real, sign: int, k: nat): (p: seq<real>)
    requires IsBuffer(c) && |c| >= 3 && k < Count(c)
    ensures |p| == 3
  {
    var m := Count(c);
    var init := Normalize(unit, ClosingEdge(c));
    if k < m - 1 then Join(c, k, ClosedPrev(c, unit, k), Track(c, unit, init, k), t, sign)
    else Join(c, k, ClosedPrev(c, unit, k), init, t, sign)
  }

  /** MeshUtils.closeOffset: the last point is joined back to the first. */
  function CloseOffset(c: seq<real>, t: real, sign: int, unit: Vec2 -> Vec2): (out: seq<real>)
    requires IsBuffer(c) && |c| >= 3
    ensures |out| == |c|
  {
    ClosePrefix(c, t, sign, unit, Count(c))
  }

  /** The closed offset of the first q points. */
  function ClosePrefix(c: seq<real>, t: real, sign: int, unit: Vec2 -> Vec2, q: nat): (out: seq<real>)
    requires IsBuffer(c) && |c| >= 3 && q <= Count(c)
    ensures |out| == 3 * q
    decreases q
  {
    if q == 0 then [] else ClosePrefix(c, t, sign, unit, q - 1) + ClosePoint(c, unit, t, sign, q - 1)
  }

  lemma {:induction false} ClosePrefixAt(c: seq<real>, t: real, sign: int, unit: Vec2 -> Vec2, q: nat, k: nat)
    requires IsBuffer(c) && |c| >= 3 && k < q <= Count(c)
    ensures PointIs(ClosePrefix(c, t, sign, unit, q), k, ClosePoint(c, unit, t, sign, k))
    decreases q
  {
    var a := ClosePrefix(c, t, sign, unit, q - 1);
    assert ClosePrefix(c, t, sign, unit, q) == a + ClosePoint(c, unit, t, sign, q - 1);
    if k < q - 1 {
      ClosePrefixAt(c, t, sign, unit, q - 1, k);
    }
  }

  /** closeOffset moves every point by the closed-mode rules and keeps
      every z coordinate. */
  lemma CloseOffsetSpec(c: seq<real>, t: real, sign: int, unit: Vec2 -> Vec2)
    requires IsBuffer(c) && |c| >= 3
    ensures IsCloseOffset(c, CloseOffset(c, t, sign, unit), unit, t, sign)
    ensures forall k :: 0 <= k < Count(c) ==> CloseOffset(c, t, sign, unit)[3 * k + 2] == c[3 * k + 2]
  {
    forall k | 0 <= k < Count(c)
      ensures PointIs(CloseOffset(c, t, sign, unit), k, ClosePoint(c, unit, t, sign, k))
    {
      ClosePrefixAt(c, t, sign, unit, Count(c), k);
    }
    CloseOffsetMeets(c, t, sign, unit, CloseOffset(c, t, sign, unit));
  }

  lemma PerpMeets(out: seq<real>, c: seq<real>, k: nat, d: Vec2, t: real, sign: int)
    requires 3 * k + 2 < |out| && 3 * k + 2 < |c|
    requires PointIs(out, k, Perp(c, k, d, t, sign))
    ensures PerpAt(out, c, k, d, t, sign)
  {
  }

  lemma JoinMeets(out: seq<real>, c: seq<real>, k: nat, prev: Vec2, next: Vec2, t: real, sign: int)
    requires 3 * k + 2 < |out| && 3 * k + 2 < |c|
    requires PointIs(out, k, Join(c, k, prev, next, t, sign))
    ensures JoinAt(out, c, k, prev, next, t, sign)
  {
  }

  lemma OpenOffsetMeets(c: seq<real>, t: real, sign: int, unit: Vec2 -> Vec2, out: seq<real>)
    requires IsBuffer(c) && |c| >= 6 && |out| == |c|
    requires forall k :: 0 <= k < Count(c) ==> PointIs(out, k, OpenPoint(c, unit, t, sign, k))
    ensures IsOpenOffset(c, out, unit, t, sign)
    ensures forall k :: 0 <= k < Count(c) ==> out[3 * k + 2] == c[3 * k + 2]
  {
    var m := Count(c);
    assert PointIs(out, 0, OpenPoint(c, unit, t, sign, 0));
    assert Track(c, unit, Zero, 0) == Normalize(unit, Edge(c, 0));
    PerpMeets(out, c, 0, Track(c, unit, Zero, 0), t, sign);
    forall k | 1 <= k < m - 1
      ensures OpenJointAt(c, out, unit, t, sign, k)
    {
      assert PointIs(out, k, OpenPoint(c, unit, t, sign, k));
      JoinMeets(out, c, k, Track(c, unit, Zero, k - 1), Track(c, unit, Zero, k), t, sign);
    }
    assert PointIs(out, m - 1, OpenPoint(c, unit, t, sign, m - 1));
    PerpMeets(out, c, m - 1, Track(c, unit, Zero, m - 2), t, sign);
    forall k | 0 <= k < m
      ensures out[3 * k + 2] == c[3 * k + 2]
    {
      assert PointIs(out, k, OpenPoint(c, unit, t, sign, k));
    }
  }

  /** The two end points of an open offset, read off its definition. */
  lemma OpenEndsMoved(c: seq<real>, out: seq<real>, unit: Vec2 -> Vec2, t: real, sign: int, m: nat)
    requires |c| == 3 * m && m >= 2 && IsOpenOffset(c, out, unit, t, sign)
    ensures PerpAt(out, c, 0, Normalize(unit, Edge(c, 0)), t, sign)
    ensures PerpAt(out, c, m - 1, Track(c, unit, Zero, m - 2), t, sign)
  {
    assert Count(c) == m;
  }

  /** The two end points of an open offset: point 0 is moved perpendicular
      to the first edge, and the last point perpendicular to the latest
      edge j of non-zero length, however many zero-length edges follow. */
  lemma OpenOffsetEnds(c: seq<real>, out: seq<real>, unit: Vec2 -> Vec2, t: real, sign: int, m: nat, j: nat)
    requires |c| == 3 * m && m >= 2 && IsOpenOffset(c, out, unit, t, sign)
    requires j <= m - 2 && !IsZero(Edge(c, j))
    requires forall i :: j < i <= m - 2 ==> IsZero(Edge(c, i))
    ensures !IsZero(Edge(c, 0)) ==> PerpAt(out, c, 0, unit(Edge(c, 0)), t, sign)
    ensures PerpAt(out, c, m - 1, unit(Edge(c, j)), t, sign)
  {
    OpenEndsMoved(c, out, unit, t, sign, m);
    TrackIsLatestEdge(c, unit, Zero, m - 2, j);
  }

  lemma ClosePointMeets(c: seq<real>, t: real, sign: int, unit: Vec2 -> Vec2, out: seq<real>, k: nat)
    requires IsBuffer(c) && |c| >= 3 && |out| == |c| && k < Count(c)
    requires PointIs(out, k, ClosePoint(c, unit, t, sign, k))
    ensures k < Count(c) - 1 ==>
      JoinAt(out, c, k, ClosedPrev(c, unit, k), Track(c, unit, Normalize(unit, ClosingEdge(c)), k), t, sign)
    ensures k == Count(c) - 1 ==>
      JoinAt(out, c, k, ClosedPrev(c, unit, k), Normalize(unit, ClosingEdge(c)), t, sign)
    ensures out[3 * k + 2] == c[3 * k + 2]
  {
    var init := Normalize(unit, ClosingEdge(c));
    if k < Count(c) - 1 {
      JoinMeets(out, c, k, ClosedPrev(c, unit, k), Track(c, unit, init, k), t, sign);
    } else {
      JoinMeets(out, c, k, ClosedPrev(c, unit, k), init, t, sign);
    }
  }

  lemma CloseOffsetMeets(c: seq<real>, t: real, sign: int, unit: Vec2 -> Vec2, out: seq<real>)
    requires IsBuffer(c) && |c| >= 3 && |out| == |c|
    requires forall k :: 0 <= k < Count(c) ==> PointIs(out, k, ClosePoint(c, unit, t, sign, k))
    ensures IsCloseOffset(c, out, unit, t, sign)
    ensures forall k :: 0 <= k < Count(c) ==> out[3 * k + 2] == c[3 * k + 2]
  {
    forall k | 0 <= k < Count(c)
      ensures k < Count(c) - 1 ==>
        JoinAt(out, c, k, ClosedPrev(c, unit, k), Track(c, unit, Normalize(unit, ClosingEdge(c)), k), t, sign)
      ensures k == Count(c) - 1 ==>
        JoinAt(out, c, k, ClosedPrev(c, unit, k), Normalize(unit, ClosingEdge(c)), t, sign)
      ensures out[3 * k + 2] == c[3 * k + 2]
    {
      ClosePointMeets(c, t, sign, unit, out, k);
    }
  }

  /** Two buffers agreeing at every point are equal. */
  lemma SamePoints(o1: seq<real>, o2: seq<real>)
    requires |o1| == |o2| && |o1| % 3 == 0
    requires forall k :: 0 <= k < |o1| / 3 ==>
               o1[3 * k] == o2[3 * k] && o1[3 * k + 1] == o2[3 * k + 1] && o1[3 * k + 2] == o2[3 * k + 2]
    ensures o1 == o2
  {
    forall i | 0 <= i < |o1|
      ensures o1[i] == o2[i]
    {
      var k := i / 3;
      assert i == 3 * k || i == 3 * k + 1 || i == 3 * k + 2;
    }
  }

  lemma PerpAtUnique(o1: seq<real>, o2: seq<real>, c: seq<real>, k: nat, d: Vec2, t: real, sign: int)
    requires 3 * k + 2 < |o1| && |o1| == |o2| && 3 * k + 2 < |c|
    requires PerpAt(o1, c, k, d, t, sign) && PerpAt(o2, c, k, d, t, sign)
    ensures o1[3 * k] == o2[3 * k] && o1[3 * k + 1] == o2[3 * k + 1] && o1[3 * k + 2] == o2[3 * k + 2]
  {
  }

  lemma JoinAtUnique(o1: seq<real>, o2: seq<real>, c: seq<real>, k: nat, prev: Vec2, next: Vec2, t: real, sign: int)
    requires 3 * k + 2 < |o1| && |o1| == |o2| && 3 * k + 2 < |c|
    requires JoinAt(o1, c, k, prev, next, t, sign) && JoinAt(o2, c, k, prev, next, t, sign)
    ensures o1[3 * k] == o2[3 * k] && o1[3 * k + 1] == o2[3 * k + 1] && o1[3 * k + 2] == o2[3 * k + 2]
  {
  }

  /** The offset predicates pin down every slot: two buffers meeting them
      for the same input are equal. */
  lemma IsOpenOffsetUnique(c: seq<real>, o1: seq<real>, o2: seq<real>, unit: Vec2 -> Vec2, t: real, sign: int)
    requires IsBuffer(c) && |c| >= 6
    requires IsOpenOffset(c, o1, unit, t, sign) && IsOpenOffset(c, o2, unit, t, sign)
    ensures o1 == o2
  {
    var m := Count(c);
    forall k | 0 <= k < m
      ensures o1[3 * k] == o2[3 * k] && o1[3 * k + 1] == o2[3 * k + 1] && o1[3 * k + 2] == o2[3 * k + 2]
    {
      if k == 0 {
        PerpAtUnique(o1, o2, c, 0, Normalize(unit, Edge(c, 0)), t, sign);
      } else if k < m - 1 {
        assert OpenJointAt(c, o1, unit, t, sign, k) && OpenJointAt(c, o2, unit, t, sign, k);
        JoinAtUnique(o1, o2, c, k, Track(c, unit, Zero, k - 1), Track(c, unit, Zero, k), t, sign);
      } else {
        PerpAtUnique(o1, o2, c, k, Track(c, unit, Zero, m - 2), t, sign);
      }
    }
    SamePoints(o1, o2);
  }

  lemma IsCloseOffsetUnique(c: seq<real>, o1: seq<real>, o2: seq<real>, unit: Vec2 -> Vec2, t: real, sign: int)
    requires IsBuffer(c) && |c| >= 3
    requires IsCloseOffset(c, o1, unit, t, sign) && IsCloseOffset(c, o2, unit, t, sign)
    ensures o1 == o2
  {
    var m := Count(c);
    var init := Normalize(unit, ClosingEdge(c));
    forall k | 0 <= k < m
      ensures o1[3 * k] == o2[3 * k] && o1[3 * k + 1] == o2[3 * k + 1] && o1[3 * k + 2] == o2[3 * k + 2]
    {
      if k < m - 1 {
        assert CloseJointAt(c, o1, unit, t, sign, k) && CloseJointAt(c, o2, unit, t, sign, k);
        JoinAtUnique(o1, o2, c, k, ClosedPrev(c, unit, k), Track(c, unit, init, k), t, sign);
      } else {
        JoinAtUnique(o1, o2, c, k, ClosedPrev(c, unit, k), init, t, sign);
      }
    }
    SamePoints(o1, o2);
  }

  /** `out` with point k replaced by the three coordinates p. */
  function WritePoint(out: seq<real>, k: nat, p: seq<real>): (r: seq<real>)
    requires 3 * k + 2 < |out| && |p| == 3
    ensures |r| == |out| && PointIs(r, k, p)
    ensures r[..3 * k + 3] == out[..3 * k] + p
  {
    out[3 * k := p[0]][3 * k + 1 := p[1]][3 * k + 2 := p[2]]
  }

  /** openOffset as the Java loop: one running direction (a, b), updated edge
      by edge and kept across a zero-length edge, and each point written
      from the directions before and after it. */
  method OpenOffsetLoop(coords: seq<real>, t: real, sign: int, unit: Vec2 -> Vec2) returns (out: seq<real>)
    requires IsBuffer(coords) && |coords| >= 6
    ensures out == OpenOffset(coords, t, sign, unit)
  {
    var n, m := |coords|, Count(coords);
    assert n == 3 * m;
    out := seq(n, _ => 0.0);
    // direction of the first edge; a zero-length edge leaves (0, 0)
    var a := coords[3] - coords[0];
    var b := coords[4] - coords[1];
    if !(a == 0.0 && b == 0.0) {
      var u := unit(Vec2(a, b));
      a, b := u.a, u.b;
    }
    OpenFirstStep(coords, t, sign, unit, out, Vec2(a, b));
    out := WritePoint(out, 0, Perp(coords, 0, Vec2(a, b), t, sign));
    // i is the Java index 3k of point k
    var i, k := 3, 1;
    while i < n - 4
      invariant i == 3 * k && 1 <= k < m
      invariant |out| == n
      invariant Vec2(a, b) == Track(coords, unit, Zero, k - 1)
      invariant out[..i] == OpenPrefix(coords, t, sign, unit, k)
    {
      var d;
      out, d := OpenJoint(coords, t, sign, unit, out, k, Vec2(a, b));
      a, b := d.a, d.b;
      i, k := i + 3, k + 1;
    }
    // last vertex
    OpenLastStep(coords, t, sign, unit, out, Vec2(a, b));
    out := WritePoint(out, k, Perp(coords, k, Vec2(a, b), t, sign));
  }

  /** One pass of openOffset's loop at interior point k: read edge k,
      update the running direction, write point k by the joint rule. */
  method OpenJoint(coords: seq<real>, t: real, sign: int, unit: Vec2 -> Vec2, out: seq<real>, k: nat, prev: Vec2)
    returns (r: seq<real>, next: Vec2)
    requires IsBuffer(coords) && |coords| >= 6 && |out| == |coords| && 1 <= k < Count(coords) - 1
    requires prev == Track(coords, unit, Zero, k - 1)
    requires out[..3 * k] == OpenPrefix(coords, t, sign, unit, k)
    ensures |r| == |coords| && next == Track(coords, unit, Zero, k)
    ensures r[..3 * k + 3] == OpenPrefix(coords, t, sign, unit, k + 1)
  {
    var i := 3 * k;
    var a := coords[i + 3] - coords[i];
    var b := coords[i + 4] - coords[i + 1];
    if a == 0.0 && b == 0.0 {
      next := prev;
    } else {
      next := unit(Vec2(a, b));
    }
    TrackStep(coords, unit, Zero, k, prev, next);
    OpenJoinStep(coords, t, sign, unit, out, k, prev, next);
    r := WritePoint(out, k, Join(coords, k, prev, next, t, sign));
  }

  /** One step of the running direction: a zero-length edge k keeps the
      previous direction, any other edge replaces it by its own. */
  lemma TrackStep(c: seq<real>, unit: Vec2 -> Vec2, init: Vec2, k: nat, prev: Vec2, next: Vec2)
    requires 3 * k + 4 < |c|
    requires prev == if k == 0 then init else Track(c, unit, init, k - 1)
    requires next == if IsZero(Edge(c, k)) then prev else unit(Edge(c, k))
    ensures next == Track(c, unit, init, k)
  {
  }

  lemma OpenFirstStep(c: seq<real>, t: real, sign: int, unit: Vec2 -> Vec2, out: seq<real>, d: Vec2)
    requires IsBuffer(c) && |c| >= 6 && |out| == |c|
    requires d == Normalize(unit, Edge(c, 0))
    ensures WritePoint(out, 0, Perp(c, 0, d, t, sign))[..3] == OpenPrefix(c, t, sign, unit, 1)
  {
    assert OpenPrefix(c, t, sign, unit, 1) == [] + OpenPoint(c, unit, t, sign, 0);
  }

  lemma OpenJoinStep(c: seq<real>, t: real, sign: int, unit: Vec2 -> Vec2, out: seq<real>, k: nat, prev: Vec2, next: Vec2)
    requires IsBuffer(c) && |c| >= 6 && |out| == |c| && 1 <= k < Count(c) - 1
    requires out[..3 * k] == OpenPrefix(c, t, sign, unit, k)
    requires prev == Track(c, unit, Zero, k - 1) && next == Track(c, unit, Zero, k)
    ensures WritePoint(out, k, Join(c, k, prev, next, t, sign))[..3 * k + 3] == OpenPrefix(c, t, sign, unit, k + 1)
  {
    assert Join(c, k, prev, next, t, sign) == OpenPoint(c, unit, t, sign, k);
  }

  lemma OpenLastStep(c: seq<real>, t: real, sign: int, unit: Vec2 -> Vec2, out: seq<real>, d: Vec2)
    requires IsBuffer(c) && |c| >= 6 && |out| == |c|
    requires out[..|c| - 3] == OpenPrefix(c, t, sign, unit, Count(c) - 1)
    requires d == Track(c, unit, Zero, Count(c) - 2)
    ensures WritePoint(out, Count(c) - 1, Perp(c, Count(c) - 1, d, t, sign)) == OpenOffset(c, t, sign, unit)
  {
    var k := Count(c) - 1;
    var p := Perp(c, k, d, t, sign);
    var r := WritePoint(out, k, p);
    assert p == OpenPoint(c, unit, t, sign, k);
    assert |r| == 3 * k + 3;
    calc {
      r;
      r[..3 * k + 3];
      out[..3 * k] + p;
      OpenPrefix(c, t, sign, unit, k + 1);
    }
  }

  /** closeOffset as the Java loop, starting from the closing edge's direction. */
  method CloseOffsetLoop(coords: seq<real>, t: real, sign: int, unit: Vec2 -> Vec2) returns (out: seq<real>)
    requires IsBuffer(coords) && |coords| >= 3
    ensures out == CloseOffset(coords, t, sign, unit)
  {
    var n, m := |coords|, Count(coords);
    assert n == 3 * m;
    out := seq(n, _ => 0.0);
    // direction of the closing edge; a zero length is replaced by 1, leaving (0, 0)
    var a := coords[0] - coords[n - 3];
    var b := coords[1] - coords[n - 2];
    if !(a == 0.0 && b == 0.0) {
      var u := unit(Vec2(a, b));
      a, b := u.a, u.b;
    }
    var a0, b0 := a, b;
    // i is the Java index 3k of point k
    var i, k := 0, 0;
    while i < n - 4
      invariant i == 3 * k && 0 <= k < m
      invariant |out| == n
      invariant Vec2(a0, b0) == Normalize(unit, ClosingEdge(coords))
      invariant Vec2(a, b) == ClosedPrev(coords, unit, k)
      invariant out[..i] == ClosePrefix(coords, t, sign, unit, k)
    {
      var d;
      out, d := CloseJoint(coords, t, sign, unit, out, k, Vec2(a, b));
      a, b := d.a, d.b;
      i, k := i + 3, k + 1;
    }
    // last vertex, joined back to the first through the closing edge
    CloseLastStep(coords, t, sign, unit, out, Vec2(a, b), Vec2(a0, b0));
    out := WritePoint(out, k, Join(coords, k, Vec2(a, b), Vec2(a0, b0), t, sign));
  }

  /** One pass of closeOffset's loop at point k (not the last). */
  method CloseJoint(coords: seq<real>, t: real, sign: int, unit: Vec2 -> Vec2, out: seq<real>, k: nat, prev: Vec2)
    returns (r: seq<real>, next: Vec2)
    requires IsBuffer(coords) && |coords| >= 3 && |out| == |coords| && k < Count(coords) - 1
    requires prev == ClosedPrev(coords, unit, k)
    requires out[..3 * k] == ClosePrefix(coords, t, sign, unit, k)
    ensures |r| == |coords| && next == ClosedPrev(coords, unit, k + 1)
    ensures r[..3 * k + 3] == ClosePrefix(coords, t, sign, unit, k + 1)
  {
    var i := 3 * k;
    var a := coords[i + 3] - coords[i];
    var b := coords[i + 4] - coords[i + 1];
    if a == 0.0 && b == 0.0 {
      next := prev;
    } else {
      next := unit(Vec2(a, b));
    }
    TrackStep(coords, unit, Normalize(unit, ClosingEdge(coords)), k, prev, next);
    CloseJoinStep(coords, t, sign, unit, out, k, prev, next);
    r := WritePoint(out, k, Join(coords, k, prev, next, t, sign));
  }

  lemma CloseJoinStep(c: seq<real>, t: real, sign: int, unit: Vec2 -> Vec2, out: seq<real>, k: nat, prev: Vec2, next: Vec2)
    requires IsBuffer(c) && |c| >= 3 && |out| == |c| && k < Count(c) - 1
    requires out[..3 * k] == ClosePrefix(c, t, sign, unit, k)
    requires prev == ClosedPrev(c, unit, k) && next == Track(c, unit, Normalize(unit, ClosingEdge(c)), k)
    ensures next == ClosedPrev(c, unit, k + 1)
    ensures WritePoint(out, k, Join(c, k, prev, next, t, sign))[..3 * k + 3] == ClosePrefix(c, t, sign, unit, k + 1)
  {
    assert Join(c, k, prev, next, t, sign) == ClosePoint(c, unit, t, sign, k);
  }

  lemma CloseLastStep(c: seq<real>, t: real, sign: int, unit: Vec2 -> Vec2, out: seq<real>, prev: Vec2, init: Vec2)
    requires IsBuffer(c) && |c| >= 3 && |out| == |c|
    requires out[..|c| - 3] == ClosePrefix(c, t, sign, unit, Count(c) - 1)
    requires prev == ClosedPrev(c, unit, Count(c) - 1) && init == Normalize(unit, ClosingEdge(c))
    ensures WritePoint(out, Count(c) - 1, Join(c, Count(c) - 1, prev, init, t, sign)) == CloseOffset(c, t, sign, unit)
  {
    var k := Count(c) - 1;
    var p := Join(c, k, prev, init, t, sign);
    var r := WritePoint(out, k, p);
    assert p == ClosePoint(c, unit, t, sign, k);
    assert |r| == 3 * k + 3;
    calc {
      r;
      r[..3 * k + 3];
      out[..3 * k] + p;
      ClosePrefix(c, t, sign, unit, k + 1);
    }
  }

  /** The joint rule only depends on the two directions' values. */
  lemma JoinAtSame(out: seq<real>, c: seq<real>, k: nat, prev: Vec2, next: Vec2, prev': Vec2, next': Vec2, t: real, sign: int)
    requires 3 * k + 2 < |out| && 3 * k + 2 < |c|
    requires JoinAt(out, c, k, prev, next, t, sign) && prev == prev' && next == next'
    ensures JoinAt(out, c, k, prev', next', t, sign)
  {
  }

  /** A joint between two equal directions (a zero-length edge reuses the
      previous one) always takes the perpendicular fallback. */
  lemma JoinStraight(out: seq<real>, c: seq<real>, k: nat, d: Vec2, t: real, sign: int)
    requires 3 * k + 2 < |out| && 3 * k + 2 < |c|
    requires JoinAt(out, c, k, d, d, t, sign)
    ensures PerpAt(out, c, k, d, t, sign)
  {
    assert Cross(d, d) == 0.0;
  }

  /** A joint where the path turns back on itself (outgoing direction the
      negation of the incoming one) takes the perpendicular fallback for the
      outgoing direction rather than dividing by a zero cross product. */
  lemma JoinFoldBack(out: seq<real>, c: seq<real>, k: nat, d: Vec2, t: real, sign: int)
    requires 3 * k + 2 < |out| && 3 * k + 2 < |c|
    requires JoinAt(out, c, k, d, Neg(d), t, sign)
    ensures out[3 * k] == c[3 * k] + t * d.b * (sign as real)
    ensures out[3 * k + 1] == c[3 * k + 1] - t * d.a * (sign as real)
    ensures out[3 * k + 2] == c[3 * k + 2]
  {
    assert Cross(d, Neg(d)) == 0.0;
  }

  lemma JoinAtZeroDistance(out: seq<real>, c: seq<real>, k: nat, prev: Vec2, next: Vec2, sign: int)
    requires 3 * k + 2 < |out| && 3 * k + 2 < |c|
    requires JoinAt(out, c, k, prev, next, 0.0, sign)
    ensures out[3 * k] == c[3 * k] && out[3 * k + 1] == c[3 * k + 1] && out[3 * k + 2] == c[3 * k + 2]
  {
  }

  /** With offset distance 0 any open offset of c is c itself. */
  lemma IsOpenOffsetZeroWidth(c: seq<real>, out: seq<real>, sign: int, unit: Vec2 -> Vec2)
    requires IsBuffer(c) && |c| >= 6
    requires IsOpenOffset(c, out, unit, 0.0, sign)
    ensures out == c
  {
    var m := Count(c);
    forall k | 0 <= k < m
      ensures out[3 * k] == c[3 * k] && out[3 * k + 1] == c[3 * k + 1] && out[3 * k + 2] == c[3 * k + 2]
    {
      if k == 0 {
        assert PerpAt(out, c, 0, Normalize(unit, Edge(c, 0)), 0.0, sign);
      } else if k < m - 1 {
        assert OpenJointAt(c, out, unit, 0.0, sign, k);
        JoinAtZeroDistance(out, c, k, Track(c, unit, Zero, k - 1), Track(c, unit, Zero, k), sign);
      } else {
        assert PerpAt(out, c, k, Track(c, unit, Zero, m - 2), 0.0, sign);
      }
    }
    SamePoints(out, c);
  }

  /** With offset distance 0 any closed offset of c is c itself. */
  lemma IsCloseOffsetZeroWidth(c: seq<real>, out: seq<real>, sign: int, unit: Vec2 -> Vec2)
    requires IsBuffer(c) && |c| >= 3
    requires IsCloseOffset(c, out, unit, 0.0, sign)
    ensures out == c
  {
    var m := Count(c);
    var init := Normalize(unit, ClosingEdge(c));
    forall k | 0 <= k < m
      ensures out[3 * k] == c[3 * k] && out[3 * k + 1] == c[3 * k + 1] && out[3 * k + 2] == c[3 * k + 2]
    {
      if k < m - 1 {
        assert CloseJointAt(c, out, unit, 0.0, sign, k);
        JoinAtZeroDistance(out, c, k, ClosedPrev(c, unit, k), Track(c, unit, init, k), sign);
      } else {
        JoinAtZeroDistance(out, c, k, ClosedPrev(c, unit, k), init, sign);
      }
    }
    SamePoints(out, c);
  }

  /** The precondition of each mode: whole points, two of them for an open
      path (openOffset reads the second point unconditionally), one for a
      closed one. */
  predicate OffsetAccepts(c: seq<real>, close: bool) {
    IsBuffer(c) && |c| >= (if close then 3 else 6)
  }

  /** MeshUtils.offset: closed mode exactly when `close` holds. */
  function Offset(c: seq<real>, d: real, sign: int, close: bool, unit: Vec2 -> Vec2): (out: seq<real>)
    requires OffsetAccepts(c, close)
    ensures |out| == |c|
  {
    if close then CloseOffset(c, d, sign, unit) else OpenOffset(c, d, sign, unit)
  }

  /** offset follows the closed-mode rules when `close` holds and the
      open-mode rules otherwise. */
  lemma OffsetSpec(c: seq<real>, d: real, sign: int, close: bool, unit: Vec2 -> Vec2)
    requires OffsetAccepts(c, close)
    ensures close ==> IsCloseOffset(c, Offset(c, d, sign, close, unit), unit, d, sign)
    ensures !close ==> IsOpenOffset(c, Offset(c, d, sign, close, unit), unit, d, sign)
  {
    if close {
      CloseOffsetSpec(c, d, sign, unit);
    } else {
      OpenOffsetSpec(c, d, sign, unit);
    }
  }

  /** With offset distance 0 `offset` reproduces its input in either mode:
      a zero-width ribbon collapses onto its centre line. */
  lemma OffsetZeroWidth(c: seq<real>, sign: int, close: bool, unit: Vec2 -> Vec2)
    requires OffsetAccepts(c, close)
    ensures Offset(c, 0.0, sign, close, unit) == c
  {
    OffsetSpec(c, 0.0, sign, close, unit);
    if close {
      IsCloseOffsetZeroWidth(c, Offset(c, 0.0, sign, close, unit), sign, unit);
    } else {
      IsOpenOffsetZeroWidth(c, Offset(c, 0.0, sign, close, unit), sign, unit);
    }
  }

  // ---------------------------------------------------------------------
  // The first edge of openOffset as written.
  // ---------------------------------------------------------------------

  /** `(float) Double.MIN_VALUE`: 2^-1074 lies below half of the smallest
      positive float, 2^-149, so the narrowing conversion rounds it to 0.0f. */
  const MinDoubleAsFloat: real := 0.0

  /** Float division x / d, `None` standing for a non-finite quotient (NaN
      for 0/0, an infinity otherwise). */
  function FloatDivide(x: real, d: real): (q: Option<real>)
    ensures q.None? <==> d == 0.0
    ensures q.Some? ==> q.value * d == x
  {
    if d == 0.0 then None else Some(x / d)
  }

  /** openOffset's first-edge direction as written: a length below
      Double.MIN_VALUE is replaced by `(float) Double.MIN_VALUE` before
      dividing. `None` stands for a direction with NaN components. */
  function OpenFirstDirAsWritten(unit: Vec2 -> Vec2, e: Vec2): (d: Option<Vec2>)
    ensures d.None? <==> IsZero(e)
    ensures !IsZero(e) ==> d == Some(unit(e))
  {
    if IsZero(e) then
      match (FloatDivide(e.a, MinDoubleAsFloat), FloatDivide(e.b, MinDoubleAsFloat))
      case (Some(a), Some(b)) => Some(Vec2(a, b))
      case _ => None
    else Some(unit(e))
  }

  /** A polyline whose first two points coincide: as written, openOffset
      divides 0 by 0.0f, its first direction is NaN and so are points 0 and
      1, while the model (dividing by a positive length, as closeOffset does
      with 1) keeps the direction (0, 0) and leaves point 0 where it is. */
  lemma OpenFirstDirNaN(unit: Vec2 -> Vec2, t: real, sign: int)
    ensures var c := [0.0, 0.0, 0.0, 0.0, 0.0, 0.0, 1.0, 0.0, 0.0];
      && OpenFirstDirAsWritten(unit, Edge(c, 0)).None?
      && Normalize(unit, Edge(c, 0)) == Zero
      && OpenOffset(c, t, sign, unit)[0] == 0.0 && OpenOffset(c, t, sign, unit)[1] == 0.0
      && OpenPointAsWritten(c, unit, t, sign, 0).None?
      && OpenPointAsWritten(c, unit, t, sign, 1).None?
      && OpenPointAsWritten(c, unit, t, sign, 2) == Some(OpenPoint(c, unit, t, sign, 2))
  {
    var c := [0.0, 0.0, 0.0, 0.0, 0.0, 0.0, 1.0, 0.0, 0.0];
    OpenOffsetZeroFirstEdge(c, t, sign, unit);
    assert !IsZero(Edge(c, 1));
    OpenNaNExtent(c, unit, t, sign, 1);
  }

  /** When the first edge has zero length, openOffset leaves point 0 in
      place: its direction is (0, 0), never undefined. */
  lemma OpenOffsetZeroFirstEdge(c: seq<real>, t: real, sign: int, unit: Vec2 -> Vec2)
    requires IsBuffer(c) && |c| >= 6
    requires IsZero(Edge(c, 0))
    ensures var out := OpenOffset(c, t, sign, unit);
      out[0] == c[0] && out[1] == c[1] && out[2] == c[2]
  {
    OpenOffsetSpec(c, t, sign, unit);
    ZeroFirstEdgeStays(c, OpenOffset(c, t, sign, unit), t, sign, unit);
  }

  lemma ZeroFirstEdgeStays(c: seq<real>, out: seq<real>, t: real, sign: int, unit: Vec2 -> Vec2)
    requires IsBuffer(c) && |c| >= 6
    requires IsZero(Edge(c, 0))
    requires IsOpenOffset(c, out, unit, t, sign)
    ensures out[0] == c[0] && out[1] == c[1] && out[2] == c[2]
  {
    assert PerpAt(out, c, 0, Zero, t, sign);
  }

  // ---------------------------------------------------------------------
  // How far the NaN of a zero-length first edge spreads, as written.
  // ---------------------------------------------------------------------

  /** The direction openOffset holds once edge k has been read, as written:
      `None` while it is NaN. A zero-length edge keeps the previous value,
      so a NaN first direction survives every zero-length edge after it. */
  function OpenDirAsWritten(c: seq<real>, unit: Vec2 -> Vec2, k: nat): Option<Vec2>
    requires 3 * k + 4 < |c|
    decreases k
  {
    if k == 0 then OpenFirstDirAsWritten(unit, Edge(c, 0))
    else if IsZero(Edge(c, k)) then OpenDirAsWritten(c, unit, k - 1)
    else Some(unit(Edge(c, k)))
  }

  /** As written, the direction after edge k is NaN exactly when edges
      0..k all have zero length; otherwise it is the model's direction. */
  lemma {:induction false} OpenDirAsWrittenAgrees(c: seq<real>, unit: Vec2 -> Vec2, k: nat)
    requires 3 * k + 4 < |c|
    ensures OpenDirAsWritten(c, unit, k).None? <==> forall i :: 0 <= i <= k ==> IsZero(Edge(c, i))
    ensures OpenDirAsWritten(c, unit, k).Some? ==> OpenDirAsWritten(c, unit, k).value == Track(c, unit, Zero, k)
    decreases k
  {
    if k > 0 {
      OpenDirAsWrittenAgrees(c, unit, k - 1);
      if !IsZero(Edge(c, k)) {
        assert !(forall i :: 0 <= i <= k ==> IsZero(Edge(c, i)));
      }
    }
  }

  /** Point k of openOffset as written, `None` once a NaN reaches it. A NaN
      direction makes the perpendicular move NaN (0 * NaN is NaN as well);
      a NaN incoming direction makes the cross product NaN, so the test
      `Math.abs(cross) < SMALL` fails and the point is divided by NaN. */
  function OpenPointAsWritten(c: seq<real>, unit: Vec2 -> Vec2, t: real, sign: int, k: nat): Option<seq<real>>
    requires IsBuffer(c) && |c| >= 6 && k < Count(c)
  {
    var m := Count(c);
    if k == 0 then
      (match OpenDirAsWritten(c, unit, 0)
       case None => None
       case Some(d) => Some(Perp(c, 0, d, t, sign)))
    else if k < m - 1 then
      (match (OpenDirAsWritten(c, unit, k - 1), OpenDirAsWritten(c, unit, k))
       case (Some(prev), Some(next)) => Some(Join(c, k, prev, next, t, sign))
       case _ => None)
    else
      (match OpenDirAsWritten(c, unit, m - 2)
       case None => None
       case Some(d) => Some(Perp(c, k, d, t, sign)))
  }

  /** With j the first edge of non-zero length, openOffset as written gives
      NaN for points 0..j when j > 0 and for no point when j == 0, at every
      distance t; every other point is the model's. */
  lemma OpenNaNExtent(c: seq<real>, unit: Vec2 -> Vec2, t: real, sign: int, j: nat)
    requires IsBuffer(c) && |c| >= 6 && 3 * j + 4 < |c|
    requires !IsZero(Edge(c, j)) && forall i :: 0 <= i < j ==> IsZero(Edge(c, i))
    ensures forall k :: 0 <= k < Count(c) ==>
      (OpenPointAsWritten(c, unit, t, sign, k).None? <==> 0 < j && k <= j)
    ensures forall k :: 0 <= k < Count(c) && OpenPointAsWritten(c, unit, t, sign, k).Some? ==>
      OpenPointAsWritten(c, unit, t, sign, k).value == OpenPoint(c, unit, t, sign, k)
  {
    forall k | 0 <= k < Count(c)
      ensures OpenPointAsWritten(c, unit, t, sign, k).None? <==> 0 < j && k <= j
      ensures OpenPointAsWritten(c, unit, t, sign, k).Some? ==>
        OpenPointAsWritten(c, unit, t, sign, k).value == OpenPoint(c, unit, t, sign, k)
    {
      OpenNaNAt(c, unit, t, sign, j, k);
    }
  }

  lemma OpenNaNAt(c: seq<real>, unit: Vec2 -> Vec2, t: real, sign: int, j: nat, k: nat)
    requires IsBuffer(c) && |c| >= 6 && 3 * j + 4 < |c| && k < Count(c)
    requires !IsZero(Edge(c, j)) && forall i :: 0 <= i < j ==> IsZero(Edge(c, i))
    ensures OpenPointAsWritten(c, unit, t, sign, k).None? <==> 0 < j && k <= j
    ensures OpenPointAsWritten(c, unit, t, sign, k).Some? ==>
      OpenPointAsWritten(c, unit, t, sign, k).value == OpenPoint(c, unit, t, sign, k)
  {
    var m := Count(c);
    assert |c| == 3 * m;
    if k == 0 {
      OpenDirAsWrittenAgrees(c, unit, 0);
    } else if k < m - 1 {
      OpenDirAsWrittenAgrees(c, unit, k - 1);
      OpenDirAsWrittenAgrees(c, unit, k);
      if k <= j {
        assert forall i :: 0 <= i <= k - 1 ==> IsZero(Edge(c, i));
      } else {
        assert !IsZero(Edge(c, j));
      }
    } else {
      OpenDirAsWrittenAgrees(c, unit, m - 2);
      assert !IsZero(Edge(c, j));
    }
  }

  /** When no edge has non-zero length, openOffset as written gives NaN for
      every point. */
  lemma OpenAllZeroNaN(c: seq<real>, unit: Vec2 -> Vec2, t: real, sign: int)
    requires IsBuffer(c) && |c| >= 6
    requires forall i :: 0 <= i < Count(c) - 1 ==> IsZero(Edge(c, i))
    ensures forall k :: 0 <= k < Count(c) ==> OpenPointAsWritten(c, unit, t, sign, k).None?
  {
    var m := Count(c);
    assert |c| == 3 * m;
    forall k | 0 <= k < m
      ensures OpenPointAsWritten(c, unit, t, sign, k).None?
    {
      if k < m - 1 {
        OpenDirAsWrittenAgrees(c, unit, if k == 0 then 0 else k - 1);
      } else {
        OpenDirAsWrittenAgrees(c, unit, m - 2);
      }
    }
  }
}
