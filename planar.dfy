/** Planar geometry of the polygon service over exact reals: the shoelace
    area of a closed ring and the clamped point-to-segment distance used by
    the simplifier. Distances are kept squared: the source's Math.sqrt is
    monotone, so every comparison it makes between distances holds between
    their squares as well. */
module Planar {

  /** A `{ longitude, latitude }` coordinate object. */
  datatype Coord = Coord(longitude: real, latitude: real)

  function Abs(x: real): real { if x < 0.0 then -x else x }

  // ---------------------------------------------------------------------------
  // Shoelace area
  // ---------------------------------------------------------------------------

  /** The shoelace term of the edge from point i to point j. */
  function Cross(c: seq<Coord>, i: nat, j: nat): real
    requires i < |c| && j < |c|
  {
    c[i].longitude * c[j].latitude - c[j].longitude * c[i].latitude
  }

  /** Sum of the terms for the edges i -> (i+1) % n, i < k, over the first n points. */
  function ShoelacePartial(c: seq<Coord>, n: nat, k: nat): real
    requires k <= n < |c|
  {
    if k == 0 then 0.0 else ShoelacePartial(c, n, k - 1) + Cross(c, k - 1, k % n)
  }

  /** Twice the signed area of a closed ring whose last point repeats the first:
      the closing point is left out and the index wraps back to 0. */
  function ShoelaceSum(c: seq<Coord>): real {
    if |c| <= 1 then 0.0 else ShoelacePartial(c, |c| - 1, |c| - 1)
  }

  /** calculatePolygonArea(coordinates) */
  method CalculatePolygonArea(coordinates: seq<Coord>) returns (area: real)
    ensures area == Abs(ShoelaceSum(coordinates)) / 2.0
    ensures area >= 0.0
  {
    area := 0.0;
    var n := |coordinates| - 1;
    var i := 0;
    while i < n
      invariant 0 <= i && (n >= 0 ==> i <= n)
      invariant n >= 1 ==> area == ShoelacePartial(coordinates, n, i)
      invariant n < 1 ==> area == 0.0
    {
      var j := (i + 1) % n;
      area := area + coordinates[i].longitude * coordinates[j].latitude;
      area := area - coordinates[j].longitude * coordinates[i].latitude;
      i := i + 1;
    }
    area := Abs(area) / 2.0;
  }

  /** The partial sum reads only the first n points. */
  lemma {:induction false} ShoelacePartialReadsPrefix(c: seq<Coord>, d: seq<Coord>, n: nat, k: nat)
    requires k <= n < |c| && n < |d|
    requires c[..n] == d[..n]
    ensures ShoelacePartial(c, n, k) == ShoelacePartial(d, n, k)
  {
    if k > 0 {
      ShoelacePartialReadsPrefix(c, d, n, k - 1);
      var j := k % n;
      assert c[k - 1] == c[..n][k - 1] && d[k - 1] == d[..n][k - 1];
      assert c[j] == c[..n][j] && d[j] == d[..n][j];
      CrossReadsPoints(c, d, k - 1, j);
    }
  }

  lemma CrossReadsPoints(c: seq<Coord>, d: seq<Coord>, i: nat, j: nat)
    requires i < |c| && j < |c| && i < |d| && j < |d|
    requires c[i] == d[i] && c[j] == d[j]
    ensures Cross(c, i, j) == Cross(d, i, j)
  {
  }

  /** The duplicated closing point never enters the area: replacing it by any
      point leaves the sum unchanged. */
  lemma AreaIgnoresClosingPoint(c: seq<Coord>, p: Coord)
    requires |c| >= 1
    ensures ShoelaceSum(c[..|c| - 1] + [p]) == ShoelaceSum(c)
  {
    var d := c[..|c| - 1] + [p];
    if |c| > 1 {
      assert c[..|c| - 1] == d[..|c| - 1];
      ShoelacePartialReadsPrefix(c, d, |c| - 1, |c| - 1);
    }
  }

  /** A ring made of one repeated point has area 0. */
  lemma {:induction false} RepeatedPointPartial(c: seq<Coord>, n: nat, k: nat)
    requires k <= n < |c|
    requires forall i :: 0 <= i < |c| ==> c[i] == c[0]
    ensures ShoelacePartial(c, n, k) == 0.0
  {
    if k > 0 {
      RepeatedPointPartial(c, n, k - 1);
    }
  }

  lemma RepeatedPointHasZeroArea(c: seq<Coord>)
    requires forall i :: 0 <= i < |c| ==> c[i] == c[0]
    ensures Abs(ShoelaceSum(c)) / 2.0 == 0.0
  {
    if |c| > 1 {
      RepeatedPointPartial(c, |c| - 1, |c| - 1);
    }
  }

  /** The 3 by 2 rectangle (0,0),(0,2),(3,2),(3,0),(0,0) has area 6. */
  lemma RectangleArea()
    ensures Abs(ShoelaceSum([Coord(0.0, 0.0), Coord(0.0, 2.0), Coord(3.0, 2.0), Coord(3.0, 0.0), Coord(0.0, 0.0)])) / 2.0 == 6.0
  {
    var c := [Coord(0.0, 0.0), Coord(0.0, 2.0), Coord(3.0, 2.0), Coord(3.0, 0.0), Coord(0.0, 0.0)];
    assert ShoelacePartial(c, 4, 1) == 0.0;
    assert ShoelacePartial(c, 4, 2) == -6.0;
    assert ShoelacePartial(c, 4, 3) == -12.0;
    assert ShoelacePartial(c, 4, 4) == -12.0;
  }

  // ---------------------------------------------------------------------------
  // Point to segment distance
  // ---------------------------------------------------------------------------

  function DistSq(p: Coord, q: Coord): real {
    (p.longitude - q.longitude) * (p.longitude - q.longitude)
    + (p.latitude - q.latitude) * (p.latitude - q.latitude)
  }

  /** The point a + t * (b - a) of the line through a and b. */
  function PointAt(a: Coord, b: Coord, t: real): Coord {
    Coord(a.longitude + t * (b.longitude - a.longitude), a.latitude + t * (b.latitude - a.latitude))
  }

  /** perpendicularDistance(point, lineStart, lineEnd), squared: the distance
      to the projection of point on the chord's line, the projection parameter
      clamped to [0, 1]; for a chord of length zero, the distance to lineStart. */
  function PerpendicularDistanceSq(point: Coord, lineStart: Coord, lineEnd: Coord): (d: real)
    ensures d >= 0.0
  {
    var a := point.longitude - lineStart.longitude;
    var b := point.latitude - lineStart.latitude;
    var c := lineEnd.longitude - lineStart.longitude;
    var d := lineEnd.latitude - lineStart.latitude;
    var dot := a * c + b * d;
    var lenSq := c * c + d * d;
    if lenSq == 0.0 then a * a + b * b
    else
      var param := dot / lenSq;
      var xx := if param < 0.0 then lineStart.longitude
                else if param > 1.0 then lineEnd.longitude
                else lineStart.longitude + param * c;
      var yy := if param < 0.0 then lineStart.latitude
                else if param > 1.0 then lineEnd.latitude
                else lineStart.latitude + param * d;
      var dx := point.longitude - xx;
      var dy := point.latitude - yy;
      dx * dx + dy * dy
  }

  /** The projection parameter of point on the chord, for a chord of non-zero length. */
  function ProjectionParam(point: Coord, lineStart: Coord, lineEnd: Coord): real
    requires DistSq(lineEnd, lineStart) != 0.0
  {
    Dot(point, lineStart, lineEnd) / DistSq(lineEnd, lineStart)
  }

  /** (point - lineStart) . (lineEnd - lineStart) */
  function Dot(point: Coord, lineStart: Coord, lineEnd: Coord): real {
    (point.longitude - lineStart.longitude) * (lineEnd.longitude - lineStart.longitude)
    + (point.latitude - lineStart.latitude) * (lineEnd.latitude - lineStart.latitude)
  }

  /** The three branches of the clamp: a zero-length chord or a parameter
      below 0 gives the distance to lineStart, a parameter above 1 the distance
      to lineEnd, any other the distance to the projected point. */
  lemma PerpendicularDistanceClamps(point: Coord, lineStart: Coord, lineEnd: Coord)
    ensures DistSq(lineEnd, lineStart) == 0.0
            ==> PerpendicularDistanceSq(point, lineStart, lineEnd) == DistSq(point, lineStart)
    ensures DistSq(lineEnd, lineStart) != 0.0 && ProjectionParam(point, lineStart, lineEnd) < 0.0
            ==> PerpendicularDistanceSq(point, lineStart, lineEnd) == DistSq(point, lineStart)
    ensures DistSq(lineEnd, lineStart) != 0.0 && ProjectionParam(point, lineStart, lineEnd) > 1.0
            ==> PerpendicularDistanceSq(point, lineStart, lineEnd) == DistSq(point, lineEnd)
    ensures DistSq(lineEnd, lineStart) != 0.0 && 0.0 <= ProjectionParam(point, lineStart, lineEnd) <= 1.0
            ==> PerpendicularDistanceSq(point, lineStart, lineEnd)
                == DistSq(point, PointAt(lineStart, lineEnd, ProjectionParam(point, lineStart, lineEnd)))
  {
  }

  /** |point - (a + t(b - a))|^2 as a polynomial in t. */
  lemma DistSqAlongLine(point: Coord, a: Coord, b: Coord, t: real)
    ensures var pa := point.longitude - a.longitude;
            var pb := point.latitude - a.latitude;
            var c := b.longitude - a.longitude;
            var d := b.latitude - a.latitude;
            DistSq(point, PointAt(a, b, t))
            == (pa * pa + pb * pb) - 2.0 * t * (pa * c + pb * d) + t * t * (c * c + d * d)
  {
    var pa := point.longitude - a.longitude;
    var pb := point.latitude - a.latitude;
    var c := b.longitude - a.longitude;
    var d := b.latitude - a.latitude;
    var q := PointAt(a, b, t);
    assert point.longitude - q.longitude == pa - t * c;
    assert point.latitude - q.latitude == pb - t * d;
    assert (pa - t * c) * (pa - t * c) == pa * pa - 2.0 * t * pa * c + t * t * (c * c);
    assert (pb - t * d) * (pb - t * d) == pb * pb - 2.0 * t * pb * d + t * t * (d * d);
  }

  function Clamp01(x: real): real {
    if x < 0.0 then 0.0 else if x > 1.0 then 1.0 else x
  }

  /** The segment parameter at which the clamped distance is attained: the
      projection parameter clamped to [0, 1], or 0 for a zero-length chord. */
  lemma ClampedParameter(point: Coord, lineStart: Coord, lineEnd: Coord) returns (best: real)
    ensures 0.0 <= best <= 1.0
    ensures PerpendicularDistanceSq(point, lineStart, lineEnd) == DistSq(point, PointAt(lineStart, lineEnd, best))
    ensures DistSq(lineEnd, lineStart) == 0.0 ==> best == 0.0
    ensures DistSq(lineEnd, lineStart) != 0.0 ==> best == Clamp01(ProjectionParam(point, lineStart, lineEnd))
  {
    PerpendicularDistanceClamps(point, lineStart, lineEnd);
    assert PointAt(lineStart, lineEnd, 0.0) == lineStart;
    assert PointAt(lineStart, lineEnd, 1.0) == lineEnd;
    if DistSq(lineEnd, lineStart) == 0.0 {
      best := 0.0;
    } else {
      best := Clamp01(ProjectionParam(point, lineStart, lineEnd));
    }
  }

  /** The squared perpendicular distance is attained at some point of the
      closed segment [lineStart, lineEnd]. */
  lemma PerpendicularDistanceAttained(point: Coord, lineStart: Coord, lineEnd: Coord)
    ensures exists t :: 0.0 <= t <= 1.0
                        && PerpendicularDistanceSq(point, lineStart, lineEnd) == DistSq(point, PointAt(lineStart, lineEnd, t))
  {
    var best := ClampedParameter(point, lineStart, lineEnd);
  }

  /** For a chord of non-zero length no point of the segment [lineStart, lineEnd]
      is closer to point than the squared perpendicular distance: together with
      PerpendicularDistanceAttained, it is the squared distance to the segment. */
  lemma PerpendicularDistanceIsMinimal(point: Coord, lineStart: Coord, lineEnd: Coord, t: real)
    requires DistSq(lineEnd, lineStart) != 0.0
    requires 0.0 <= t <= 1.0
    ensures PerpendicularDistanceSq(point, lineStart, lineEnd) <= DistSq(point, PointAt(lineStart, lineEnd, t))
  {
    var best := ClampedParameter(point, lineStart, lineEnd);
    ClampedProjectionIsClosest(point, lineStart, lineEnd, t);
  }

  /** On a chord of non-zero length, the point at the clamped projection
      parameter is the point of the segment closest to point. */
  lemma ClampedProjectionIsClosest(point: Coord, lineStart: Coord, lineEnd: Coord, t: real)
    requires DistSq(lineEnd, lineStart) != 0.0
    requires 0.0 <= t <= 1.0
    ensures DistSq(point, PointAt(lineStart, lineEnd, Clamp01(ProjectionParam(point, lineStart, lineEnd))))
            <= DistSq(point, PointAt(lineStart, lineEnd, t))
  {
    var pa := point.longitude - lineStart.longitude;
    var pb := point.latitude - lineStart.latitude;
    var c := lineEnd.longitude - lineStart.longitude;
    var d := lineEnd.latitude - lineStart.latitude;
    var k := pa * pa + pb * pb;
    var len := DistSq(lineEnd, lineStart);
    var dot := Dot(point, lineStart, lineEnd);
    assert len == c * c + d * d && len > 0.0 by {
      SumOfSquaresNonnegative(c, d);
    }
    assert dot == pa * c + pb * d;
    var best := Clamp01(ProjectionParam(point, lineStart, lineEnd));
    assert DistSq(point, PointAt(lineStart, lineEnd, best)) == k - 2.0 * best * dot + best * best * len by {
      DistSqAlongLine(point, lineStart, lineEnd, best);
    }
    assert DistSq(point, PointAt(lineStart, lineEnd, t)) == k - 2.0 * t * dot + t * t * len by {
      DistSqAlongLine(point, lineStart, lineEnd, t);
    }
    SegmentMinimum(k, dot, len, best, t);
  }

  lemma SumOfSquaresNonnegative(c: real, d: real)
    ensures c * c + d * d >= 0.0
  {
  }

  /** A degenerate chord (lineEnd == lineStart) measures the distance to lineStart. */
  lemma DegenerateChord(point: Coord, lineStart: Coord)
    ensures PerpendicularDistanceSq(point, lineStart, lineStart) == DistSq(point, lineStart)
  {
  }

  /** f(t) = k - 2 t dot + t^2 len, with len > 0, is smallest on [0, 1] at
      the projection parameter dot / len clamped to [0, 1]. */
  lemma SegmentMinimum(k: real, dot: real, len: real, best: real, t: real)
    requires len > 0.0 && 0.0 <= t <= 1.0
    requires best == Clamp01(dot / len)
    ensures k - 2.0 * best * dot + best * best * len <= k - 2.0 * t * dot + t * t * len
  {
    var param := dot / len;
    assert dot == param * len;
    if param < 0.0 {
      SegmentMinimumBelow(k, dot, len, param, t);
    } else if param > 1.0 {
      SegmentMinimumAbove(k, dot, len, param, t);
    } else {
      SegmentMinimumInside(k, dot, len, param, t);
    }
  }

  lemma SegmentMinimumBelow(k: real, dot: real, len: real, param: real, t: real)
    requires len > 0.0 && 0.0 <= t <= 1.0 && dot == param * len && param < 0.0
    ensures k <= k - 2.0 * t * dot + t * t * len
  {
    assert dot < 0.0;
    assert t * dot <= 0.0;
    assert t * t * len >= 0.0;
  }

  lemma SegmentMinimumAbove(k: real, dot: real, len: real, param: real, t: real)
    requires len > 0.0 && 0.0 <= t <= 1.0 && dot == param * len && param > 1.0
    ensures k - 2.0 * dot + len <= k - 2.0 * t * dot + t * t * len
  {
    assert dot - len == (param - 1.0) * len;
    assert (param - 1.0) * len > 0.0;
    var diff := (1.0 - t) * (2.0 * dot - (1.0 + t) * len);
    assert 2.0 * dot - (1.0 + t) * len >= (1.0 - t) * len;
    assert (1.0 - t) * len >= 0.0;
    assert diff >= 0.0;
    assert (k - 2.0 * t * dot + t * t * len) - (k - 2.0 * dot + len) == diff;
  }

  lemma SegmentMinimumInside(k: real, dot: real, len: real, param: real, t: real)
    requires len > 0.0 && dot == param * len
    ensures k - 2.0 * param * dot + param * param * len <= k - 2.0 * t * dot + t * t * len
  {
    assert (k - 2.0 * t * dot + t * t * len) - (k - 2.0 * param * dot + param * param * len)
           == len * ((t - param) * (t - param));
    assert (t - param) * (t - param) >= 0.0;
  }
}
