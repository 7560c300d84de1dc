/** The orientation test of MeshUtils (clockwise3D): the winding of a
    polygon, projected on the x,y plane, from an edge-by-edge accumulated
    sum. The Java sum is a double of float products; here it is exact. */
module Orientation {

  /** x of point k. */
  function X(c: seq<real>, k: nat): real
    requires 3 * k < |c|
  {
    c[3 * k]
  }

  /** y of point k. */
  function Y(c: seq<real>, k: nat): real
    requires 3 * k + 1 < |c|
  {
    c[3 * k + 1]
  }

  /** The term clockwise3D adds for flat index i: the edge ending at slot i. */
  function Term(c: seq<real>, i: nat): real
    requires 3 <= i && i + 1 < |c|
  {
    EdgeTerm(c[i - 3], c[i - 2], c[i], c[i + 1])
  }

  /** The product clockwise3D adds for the edge from (x0, y0) to (x1, y1). */
  function EdgeTerm(x0: real, y0: real, x1: real, y1: real): real {
    (x1 - x0) * (y1 + y0)
  }

  /** The sum of the loop's terms for i = 3, 6, ..., 3k. */
  function EdgeSum(c: seq<real>, k: nat): real
    requires 3 * k + 1 < |c|
    decreases k
  {
    if k == 0 then 0.0 else EdgeSum(c, k - 1) + Term(c, 3 * k)
  }

  /** The loop of clockwise3D runs i = 3, 6, ... while i < |c| - 2. */
  function Iterations(c: seq<real>): nat
    requires |c| >= 3
  {
    (|c| - 3) / 3
  }

  /** The whole accumulated sum: the loop's terms plus the closing edge from
      the last point back to the first. */
  function WindingSum(c: seq<real>): real
    requires |c| >= 3
  {
    EdgeSum(c, Iterations(c)) + EdgeTerm(c[|c| - 3], c[|c| - 2], c[0], c[1])
  }

  /** MeshUtils.clockwise3D: -1 when the accumulated sum is strictly
      positive, 1 otherwise, a zero sum included. */
  method Clockwise3D(coords: seq<real>) returns (r: int)
    requires |coords| >= 3
    ensures r == -1 || r == 1
    ensures r == -1 <==> WindingSum(coords) > 0.0
    ensures r == 1 <==> WindingSum(coords) <= 0.0
  {
    var sum := 0.0;
    var length := |coords|;
    // i is the Java index 3k
    var i, k := 3, 1;
    while i < length - 2
      invariant i == 3 * k && 1 <= k && 3 * k <= length
      invariant sum == EdgeSum(coords, k - 1)
    {
      sum := sum + EdgeTerm(coords[i - 3], coords[i - 2], coords[i], coords[i + 1]);
      i, k := i + 3, k + 1;
    }
    assert k - 1 == Iterations(coords);
    sum := sum + EdgeTerm(coords[length - 3], coords[length - 2], coords[0], coords[1]);
    if sum > 0.0 {
      return -1;
    }
    return 1;
  }

  // ---------------------------------------------------------------------
  // The sum against the shoelace signed area.
  // ---------------------------------------------------------------------

  /** True iff c holds whole points, at least one. */
  predicate IsPolygon(c: seq<real>) {
    |c| % 3 == 0 && |c| >= 3
  }

  /** The shoelace terms x(k-1)*y(k) - x(k)*y(k-1) for k = 1..n. */
  function Shoelace(c: seq<real>, n: nat): real
    requires 3 * n + 1 < |c|
    decreases n
  {
    if n == 0 then 0.0
    else Shoelace(c, n - 1) + (X(c, n - 1) * Y(c, n) - X(c, n) * Y(c, n - 1))
  }

  /** Twice the signed area of the closed polygon, positive when it winds
      counter-clockwise in the x,y plane. */
  function TwiceSignedArea(c: seq<real>): real
    requires IsPolygon(c)
  {
    var m := |c| / 3;
    Shoelace(c, m - 1) + (X(c, m - 1) * Y(c, 0) - X(c, 0) * Y(c, m - 1))
  }

  lemma {:induction false} EdgeSumShoelace(c: seq<real>, n: nat)
    requires 3 * n + 1 < |c|
    ensures EdgeSum(c, n) == X(c, n) * Y(c, n) - X(c, 0) * Y(c, 0) - Shoelace(c, n)
    decreases n
  {
    if n > 0 {
      EdgeSumShoelace(c, n - 1);
      var x0, y0, x1, y1 := X(c, n - 1), Y(c, n - 1), X(c, n), Y(c, n);
      assert 3 * n - 3 == 3 * (n - 1) && 3 * n - 2 == 3 * (n - 1) + 1;
      assert Term(c, 3 * n) == EdgeTerm(x0, y0, x1, y1);
      EdgeTermExpanded(x0, y0, x1, y1);
    }
  }

  /** One edge's term, multiplied out. */
  lemma EdgeTermExpanded(x0: real, y0: real, x1: real, y1: real)
    ensures EdgeTerm(x0, y0, x1, y1) == x1 * y1 - x0 * y0 - (x0 * y1 - x1 * y0)
  {
  }

  /** The accumulated sum is minus twice the signed area, so clockwise3D
      answers -1 exactly for polygons wound clockwise. */
  lemma WindingSumIsMinusTwiceArea(c: seq<real>)
    requires IsPolygon(c)
    ensures WindingSum(c) == -TwiceSignedArea(c)
    ensures WindingSum(c) > 0.0 <==> TwiceSignedArea(c) < 0.0
  {
    var m := |c| / 3;
    assert Iterations(c) == m - 1;
    EdgeSumShoelace(c, m - 1);
    var xa, ya, xz, yz := X(c, 0), Y(c, 0), X(c, m - 1), Y(c, m - 1);
    assert c[|c| - 3] == xz && c[|c| - 2] == yz;
    assert (xa - xz) * (ya + yz) == xa * ya - xz * yz - (xz * ya - xa * yz);
  }

  // ---------------------------------------------------------------------
  // Reversing the point order.
  // ---------------------------------------------------------------------

  /** The same polygon with its points in the opposite order. */
  function ReversePoints(c: seq<real>): (r: seq<real>)
    requires |c| % 3 == 0
    ensures |r| == |c|
    decreases |c|
  {
    if |c| == 0 then [] else c[|c| - 3..] + ReversePoints(c[..|c| - 3])
  }

  /** Point k of the reversed polygon of m points is point m-1-k. */
  lemma {:induction false} ReversePointsAt(c: seq<real>, m: nat, k: nat)
    requires |c| == 3 * m && k < m
    ensures var r := ReversePoints(c);
      X(r, k) == X(c, m - 1 - k) && Y(r, k) == Y(c, m - 1 - k)
    decreases m
  {
    if k == 0 {
      ReverseFirst(c, m);
    } else {
      ReversePointsAt(c[..3 * m - 3], m - 1, k - 1);
      ReverseShift(c, m, k);
    }
  }

  /** The reversed polygon starts with the last point. */
  lemma ReverseFirst(c: seq<real>, m: nat)
    requires |c| == 3 * m && 0 < m
    ensures var r := ReversePoints(c);
      X(r, 0) == X(c, m - 1) && Y(r, 0) == Y(c, m - 1)
  {
    assert ReversePoints(c) == c[|c| - 3..] + ReversePoints(c[..|c| - 3]);
  }

  /** Past its first point the reversed polygon is the reversal of all
      but the last point. */
  lemma ReverseShift(c: seq<real>, m: nat, k: nat)
    requires |c| == 3 * m && 1 <= k < m
    ensures var r, rest := ReversePoints(c), c[..3 * m - 3];
      && X(r, k) == X(ReversePoints(rest), k - 1) && Y(r, k) == Y(ReversePoints(rest), k - 1)
      && X(rest, m - 1 - k) == X(c, m - 1 - k) && Y(rest, m - 1 - k) == Y(c, m - 1 - k)
  {
    var rest := c[..3 * m - 3];
    assert ReversePoints(c) == c[3 * m - 3..] + ReversePoints(rest);
  }

  /** The edge term of the reversed polygon at point n is minus the term of
      the original's edge between the same two points. */
  lemma ReversedTerm(c: seq<real>, m: nat, n: nat)
    requires |c| == 3 * m && 1 <= n <= m - 1
    ensures Term(ReversePoints(c), 3 * n) == -Term(c, 3 * (m - n))
  {
    var j := m - n;
    ReversedEdge(c, m, n);
    EdgeTermReversed(c[3 * j - 3], c[3 * j - 2], c[3 * j], c[3 * j + 1]);
  }

  /** The edge into point n of the reversed polygon is the edge into point
      m - n of the original, walked backwards. */
  lemma ReversedEdge(c: seq<real>, m: nat, n: nat)
    requires |c| == 3 * m && 1 <= n <= m - 1
    ensures var r, j := ReversePoints(c), m - n;
      && r[3 * n] == c[3 * j - 3] && r[3 * n + 1] == c[3 * j - 2]
      && r[3 * n - 3] == c[3 * j] && r[3 * n - 2] == c[3 * j + 1]
  {
    ReversePointsAt(c, m, n);
    ReversePointsAt(c, m, n - 1);
  }

  /** The edge term read in the other direction has the opposite sign. */
  lemma EdgeTermReversed(x0: real, y0: real, x1: real, y1: real)
    ensures EdgeTerm(x1, y1, x0, y0) == -EdgeTerm(x0, y0, x1, y1)
  {
  }

  lemma {:induction false} EdgeSumReversed(c: seq<real>, m: nat, n: nat)
    requires |c| == 3 * m && n <= m - 1
    ensures EdgeSum(ReversePoints(c), n) == EdgeSum(c, m - 1 - n) - EdgeSum(c, m - 1)
    decreases n
  {
    if n > 0 {
      EdgeSumReversed(c, m, n - 1);
      ReversedTerm(c, m, n);
      assert EdgeSum(c, m - n) == EdgeSum(c, m - n - 1) + Term(c, 3 * (m - n));
    }
  }

  /** Reversing the point order negates the accumulated sum. */
  lemma WindingSumReversed(c: seq<real>)
    requires IsPolygon(c)
    ensures WindingSum(ReversePoints(c)) == -WindingSum(c)
  {
    var m := |c| / 3;
    var r := ReversePoints(c);
    assert Iterations(c) == m - 1 && Iterations(r) == m - 1;
    EdgeSumReversed(c, m, m - 1);
    ClosingEdgeReversed(c, m);
    EdgeTermReversed(c[3 * m - 3], c[3 * m - 2], c[0], c[1]);
  }

  /** The closing edge of the reversed polygon runs from the original's
      first point to its last. */
  lemma ClosingEdgeReversed(c: seq<real>, m: nat)
    requires |c| == 3 * m && m >= 1
    ensures var r := ReversePoints(c);
      && r[0] == c[3 * m - 3] && r[1] == c[3 * m - 2]
      && r[3 * m - 3] == c[0] && r[3 * m - 2] == c[1]
  {
    ReversePointsAt(c, m, 0);
    ReversePointsAt(c, m, m - 1);
  }

  /** A polygon with a non-zero sum and its reversal get opposite answers
      from clockwise3D. */
  lemma ReversalFlipsOrientation(c: seq<real>)
    requires IsPolygon(c) && WindingSum(c) != 0.0
    ensures WindingSum(c) > 0.0 <==> !(WindingSum(ReversePoints(c)) > 0.0)
  {
    WindingSumReversed(c);
  }
}
