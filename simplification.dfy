// Douglas-Peucker simplification of a ring of coordinates (simplifyPolygon).
// Distances are compared squared: the source compares square roots of
// non-negative numbers with a non-negative tolerance, and for such numbers
// sqrt(x) > sqrt(y) exactly when x > y and sqrt(x) > t exactly when x > t * t.

module Simplification {
  import opened Planar

  /** The tolerance simplifyPolygon uses when the caller gives none. */
  const DefaultTolerance: real := 0.0001

  /** The squared distance of c[j] from the chord c[s] -> c[e]. */
  function ChordDistance(c: seq<Coord>, s: nat, e: nat, j: nat): real
    requires s < |c| && e < |c| && j < |c|
  {
    PerpendicularDistanceSq(c[j], c[s], c[e])
  }

  /** The scan over the interior points s < j < k of the chord c[s] -> c[e]:
      (index, distance) of the first point at the largest distance, or (0, 0)
      while no point is at a positive distance. */
  function Farthest(c: seq<Coord>, s: nat, e: nat, k: nat): (r: (nat, real))
    requires s < e < |c| && s < k <= e
    ensures r.1 >= 0.0
    ensures r.1 == 0.0 ==> r.0 == 0
    ensures r.1 > 0.0 ==> s < r.0 < k && r.1 == ChordDistance(c, s, e, r.0)
    ensures forall j :: s < j < k ==> ChordDistance(c, s, e, j) <= r.1
    ensures r.1 > 0.0 ==> forall j :: s < j < r.0 ==> ChordDistance(c, s, e, j) < r.1
    decreases k
  {
    if k == s + 1 then (0, 0.0)
    else
      var prev := Farthest(c, s, e, k - 1);
      var dist := ChordDistance(c, s, e, k - 1);
      if dist > prev.1 then (k - 1, dist) else prev
  }

  /** Strictly increasing indices. */
  predicate Increasing(ks: seq<nat>) {
    forall i, j :: 0 <= i < j < |ks| ==> ks[i] < ks[j]
  }

  /** The interior indices of the chord s -> e that simplifySegment(s, e) keeps,
      in the order it pushes them, for the squared tolerance toleranceSq. */
  function Kept(c: seq<Coord>, toleranceSq: real, s: nat, e: nat): (ks: seq<nat>)
    requires s < e < |c| && toleranceSq >= 0.0
    ensures forall i :: 0 <= i < |ks| ==> s < ks[i] < e
    ensures Increasing(ks)
    ensures |ks| <= e - s - 1
    decreases e - s
  {
    var farthest := Farthest(c, s, e, e);
    
    if farthest.1 > toleranceSq then
      var left := Kept(c, toleranceSq, s, farthest.0);
      var right := Kept(c, toleranceSq, farthest.0, e);
      assert forall i :: 0 <= i < |left + [farthest.0] + right| ==>
        (left + [farthest.0] + right)[i]
        == if i < |left| then left[i] else if i == |left| then farthest.0 else right[i - |left| - 1];
      left + [farthest.0] + right
    else []
  }

  lemma KeptUnfold(c: seq<Coord>, toleranceSq: real, s: nat, e: nat)
    requires s < e < |c| && toleranceSq >= 0.0
    ensures var farthest := Farthest(c, s, e, e);
            Kept(c, toleranceSq, s, e)
            == if farthest.1 > toleranceSq
               then Kept(c, toleranceSq, s, farthest.0) + [farthest.0] + Kept(c, toleranceSq, farthest.0, e)
               else []
  {
  }

  lemma NonnegativeSquare(x: real)
    requires x >= 0.0
    ensures x * x >= 0.0
  {
  }

  /** The coordinates at the given indices. */
  function Select(c: seq<Coord>, ks: seq<nat>): (r: seq<Coord>)
    requires forall i :: 0 <= i < |ks| ==> ks[i] < |c|
    ensures |r| == |ks|
    ensures forall i :: 0 <= i < |ks| ==> r[i] == c[ks[i]]
  {
    if ks == [] then [] else [c[ks[0]]] + Select(c, ks[1..])
  }

  /** The indices of the points simplifyPolygon returns, for more than three points. */
  function KeptIndices(c: seq<Coord>, toleranceSq: real): (ks: seq<nat>)
    requires |c| > 3 && toleranceSq >= 0.0
    ensures |ks| >= 2 && ks[0] == 0 && ks[|ks| - 1] == |c| - 1
    ensures forall i :: 0 <= i < |ks| ==> ks[i] < |c|
    ensures Increasing(ks)
  {
    var inner := Kept(c, toleranceSq, 0, |c| - 1);
    var ks := [0] + inner + [|c| - 1];
    assert forall i :: 0 < i < |ks| - 1 ==> ks[i] == inner[i - 1];
    ks
  }

  /** What simplifyPolygon(coordinates, tolerance) returns. */
  function Simplified(c: seq<Coord>, tolerance: real): seq<Coord>
    requires tolerance >= 0.0
  {
    NonnegativeSquare(tolerance);
    if |c| <= 3 then c else Select(c, KeptIndices(c, tolerance * tolerance))
  }

  /** The closure simplifySegment together with the array `simplified` it pushes to. */
  class Simplifier {
    const coordinates: seq<Coord>
    /** The square of the tolerance the points are compared with. */
    const toleranceSq: real
    var simplified: seq<Coord>

    /** simplified = [coordinates[0]] */
    constructor (coordinates: seq<Coord>, tolerance: real)
      requires |coordinates| > 0 && tolerance >= 0.0
      ensures this.coordinates == coordinates && toleranceSq == tolerance * tolerance
      ensures toleranceSq >= 0.0
      ensures simplified == [coordinates[0]]
    {
      this.coordinates := coordinates;
      NonnegativeSquare(tolerance);
      toleranceSq := tolerance * tolerance;
      simplified := [coordinates[0]];
    }

    /** The loop of simplifySegment: the first interior point of the chord
        start -> end at the largest distance from it, or (0, 0) when every
        interior point lies on the chord. */
    method FindFarthest(start: nat, end: nat) returns (maxIndex: nat, maxDistance: real)
      requires start < end < |coordinates|
      ensures (maxIndex, maxDistance) == Farthest(coordinates, start, end, end)
    {
      maxDistance := 0.0;
      maxIndex := 0;
      var i := start + 1;
      while i < end
        invariant start + 1 <= i <= end
        invariant (maxIndex, maxDistance) == Farthest(coordinates, start, end, i)
      {
        var distance := PerpendicularDistanceSq(coordinates[i], coordinates[start], coordinates[end]);
        if distance > maxDistance {
          maxDistance := distance;
          maxIndex := i;
        }
        i := i + 1;
      }
    }

    /** Finds the interior point farthest from the chord start -> end; when it is
        farther than the tolerance, simplifies the left part, pushes the point
        and simplifies the right part. */
    method SimplifySegment(start: nat, end: nat)
      requires start < end < |coordinates| && toleranceSq >= 0.0
      modifies this
      ensures simplified == old(simplified) + Select(coordinates, Kept(coordinates, toleranceSq, start, end))
      decreases end - start
    {
      var maxIndex, maxDistance := FindFarthest(start, end);
      
      if maxDistance > toleranceSq {
        ghost var before := simplified;
        SimplifySegment(start, maxIndex);
        simplified := simplified + [coordinates[maxIndex]];
        SimplifySegment(maxIndex, end);
        assert simplified == old(simplified) + Select(coordinates, Kept(coordinates, toleranceSq, start, end)) by {
          SelectKeptSplits(coordinates, toleranceSq, start, end);
          AppendAssociates(before, Select(coordinates, Kept(coordinates, toleranceSq, start, maxIndex)),
                           [coordinates[maxIndex]], Select(coordinates, Kept(coordinates, toleranceSq, maxIndex, end)));
        }
      } else {
        SelectKeptSplits(coordinates, toleranceSq, start, end);
      }
    }
  }

  lemma AppendAssociates<T>(a: seq<T>, b: seq<T>, x: seq<T>, c: seq<T>)
    ensures a + b + x + c == a + (b + x + c)
  {
  }

  /** The points kept on a chord are those kept left of its farthest point, that
      point, and those kept right of it; or none when the farthest point is
      within the tolerance. */
  lemma SelectKeptSplits(c: seq<Coord>, toleranceSq: real, s: nat, e: nat)
    requires s < e < |c| && toleranceSq >= 0.0
    ensures var farthest := Farthest(c, s, e, e);
            Select(c, Kept(c, toleranceSq, s, e))
            == if farthest.1 > toleranceSq
               then Select(c, Kept(c, toleranceSq, s, farthest.0)) + [c[farthest.0]]
                    + Select(c, Kept(c, toleranceSq, farthest.0, e))
               else []
  {
    var farthest := Farthest(c, s, e, e);
    KeptUnfold(c, toleranceSq, s, e);
    
    if farthest.1 > toleranceSq {
      var left := Kept(c, toleranceSq, s, farthest.0);
      var right := Kept(c, toleranceSq, farthest.0, e);
      SelectConcat(c, left, [farthest.0]);
      SelectConcat(c, left + [farthest.0], right);
      assert Select(c, [farthest.0]) == [c[farthest.0]];
    }
  }

  lemma SelectConcat(c: seq<Coord>, a: seq<nat>, b: seq<nat>)
    requires forall i :: 0 <= i < |a| ==> a[i] < |c|
    requires forall i :: 0 <= i < |b| ==> b[i] < |c|
    ensures forall i :: 0 <= i < |a + b| ==> (a + b)[i] < |c|
    ensures Select(c, a + b) == Select(c, a) + Select(c, b)
  {
    assert forall i :: 0 <= i < |a + b| ==> (a + b)[i] == if i < |a| then a[i] else b[i - |a|];
  }

  /** simplifyPolygon: at most three points are returned as they are; otherwise
      the first point, the points simplifySegment keeps over the whole ring, and
      the last point. */
  method SimplifyPolygon(coordinates: seq<Coord>, tolerance: real) returns (result: seq<Coord>)
    requires tolerance >= 0.0
    ensures result == Simplified(coordinates, tolerance)
    ensures |coordinates| <= 3 ==> result == coordinates
    ensures |coordinates| > 3 ==>
              && 2 <= |result| <= |coordinates|
              && result[0] == coordinates[0] && result[|result| - 1] == coordinates[|coordinates| - 1]
  {
    if |coordinates| <= 3 {
      return coordinates;
    }
    var simplifier := new Simplifier(coordinates, tolerance);
    simplifier.SimplifySegment(0, |coordinates| - 1);
    result := simplifier.simplified + [coordinates[|coordinates| - 1]];
    SimplifiedUnfold(coordinates, tolerance);
    SimplifiedKeepsEnds(coordinates, tolerance);
  }

  lemma SimplifiedUnfold(c: seq<Coord>, tolerance: real)
    requires |c| > 3 && tolerance >= 0.0
    ensures tolerance * tolerance >= 0.0
    ensures Simplified(c, tolerance)
            == [c[0]] + Select(c, Kept(c, tolerance * tolerance, 0, |c| - 1)) + [c[|c| - 1]]
  {
    NonnegativeSquare(tolerance);
    var inner := Kept(c, tolerance * tolerance, 0, |c| - 1);
    SelectConcat(c, [0], inner);
    SelectConcat(c, [0] + inner, [|c| - 1]);
  }

  /** Every index of ks is an index of c, and every point strictly between two
      consecutive indices of ks lies within the tolerance of the chord joining them. */
  predicate WithinTolerance(c: seq<Coord>, toleranceSq: real, ks: seq<nat>) {
    (forall k :: 0 <= k < |ks| ==> ks[k] < |c|)
    && forall i :: 0 <= i < |ks| - 1 ==> ChordWithinTolerance(c, toleranceSq, ks[i], ks[i + 1])
  }

  /** Every point strictly between c[s] and c[e] lies within the tolerance of the chord c[s] -> c[e]. */
  predicate ChordWithinTolerance(c: seq<Coord>, toleranceSq: real, s: nat, e: nat) {
    s < |c| && e < |c| && forall j :: s < j < e ==> ChordDistance(c, s, e, j) <= toleranceSq
  }

  lemma WithinToleranceJoin(c: seq<Coord>, toleranceSq: real, a: seq<nat>, b: seq<nat>)
    requires |a| > 0 && |b| > 0 && a[|a| - 1] == b[0]
    requires WithinTolerance(c, toleranceSq, a) && WithinTolerance(c, toleranceSq, b)
    ensures WithinTolerance(c, toleranceSq, a + b[1..])
  {
    var ab := a + b[1..];
    assert forall k :: 0 <= k < |ab| ==> ab[k] == if k < |a| then a[k] else b[k - |a| + 1];
    forall i | 0 <= i < |ab| - 1
      ensures ChordWithinTolerance(c, toleranceSq, ab[i], ab[i + 1])
    {
      if i < |a| - 1 {
        assert ab[i] == a[i] && ab[i + 1] == a[i + 1];
      } else {
        var i' := i - |a| + 1;
        assert ab[i] == b[i'] && ab[i + 1] == b[i' + 1];
      }
    }
  }

  lemma JoinAtSharedEnd(s: nat, left: seq<nat>, m: nat, right: seq<nat>, e: nat)
    ensures ([s] + left + [m]) + ([m] + right + [e])[1..] == [s] + (left + [m] + right) + [e]
  {
    assert ([m] + right + [e])[1..] == right + [e];
  }

  /** The Douglas-Peucker guarantee for one chord: with its end points, the
      indices simplifySegment(s, e) keeps leave every dropped point within the
      tolerance of the chord between the kept points around it. */
  lemma {:induction false} KeptWithinTolerance(c: seq<Coord>, toleranceSq: real, s: nat, e: nat)
    requires s < e < |c| && toleranceSq >= 0.0
    ensures WithinTolerance(c, toleranceSq, [s] + Kept(c, toleranceSq, s, e) + [e])
    decreases e - s
  {
    var farthest := Farthest(c, s, e, e);
    KeptUnfold(c, toleranceSq, s, e);
    if farthest.1 > toleranceSq {
      var m := farthest.0;
      var left := Kept(c, toleranceSq, s, m);
      var right := Kept(c, toleranceSq, m, e);
      KeptWithinTolerance(c, toleranceSq, s, m);
      KeptWithinTolerance(c, toleranceSq, m, e);
      var a := [s] + left + [m];
      var b := [m] + right + [e];
      WithinToleranceJoin(c, toleranceSq, a, b);
      JoinAtSharedEnd(s, left, m, right, e);
    } else {
      assert [s] + Kept(c, toleranceSq, s, e) + [e] == [s, e];
      assert ChordWithinTolerance(c, toleranceSq, s, e);
    }
  }

  /** simplifyPolygon keeps the first and the last point, returns at least two
      and never more points than it was given, in their original order. */
  lemma SimplifiedKeepsEnds(c: seq<Coord>, tolerance: real)
    requires |c| > 3 && tolerance >= 0.0
    ensures var r := Simplified(c, tolerance);
            2 <= |r| <= |c| && r[0] == c[0] && r[|r| - 1] == c[|c| - 1]
    ensures var ks := KeptIndices(c, tolerance * tolerance);
            Simplified(c, tolerance) == Select(c, ks) && Increasing(ks)
  {
    SimplifiedUnfold(c, tolerance);
  }

  /** Every point simplifyPolygon drops lies within the tolerance (compared
      squared) of the chord between the kept points before and after it. */
  lemma SimplifiedWithinTolerance(c: seq<Coord>, tolerance: real)
    requires |c| > 3 && tolerance >= 0.0
    ensures tolerance * tolerance >= 0.0
    ensures WithinTolerance(c, tolerance * tolerance, KeptIndices(c, tolerance * tolerance))
  {
    NonnegativeSquare(tolerance);
    KeptWithinTolerance(c, tolerance * tolerance, 0, |c| - 1);
  }

  /** simplifyPolygon with its default tolerance. */
  method SimplifyPolygonDefault(coordinates: seq<Coord>) returns (result: seq<Coord>)
    ensures result == Simplified(coordinates, DefaultTolerance)
  {
    result := SimplifyPolygon(coordinates, DefaultTolerance);
  }
}
