/** validatePolygonGeometry of the polygon controller: the check applied to the
    converted GeoJSON coordinate array before a polygon is stored. Only the
    outer ring, `coordinates[0]`, is examined. */
module CoordinatesValidation {
  import opened Text
  import opened Json

  const NotNonEmptyArrayError: string := "Coordinates must be a non-empty array"
  const OuterRingTooShortError: string := "Outer ring must have at least 4 coordinates"
  const NotClosedError: string := "Polygon must be closed (first and last coordinates must be the same)"

  function InvalidPositionError(i: nat): string {
    "Invalid coordinate at position " + NatToString(i) + ": must be [longitude, latitude]"
  }

  function LongitudeError(i: nat): string {
    "Longitude at position " + NatToString(i) + " must be between -180 and 180"
  }

  function LatitudeError(i: nat): string {
    "Latitude at position " + NatToString(i) + " must be between -90 and 90"
  }

  /** The checks of the loop body for the position at index i, in the source's order. */
  function CheckPosition(coord: Value, i: nat): Verdict {
    if !coord.Arr? || |coord.items| != 2 || !coord.items[0].Num? || !coord.items[1].Num? then
      Invalid(InvalidPositionError(i))
    else if coord.items[0].n < -180.0 || coord.items[0].n > 180.0 then
      Invalid(LongitudeError(i))
    else if coord.items[1].n < -90.0 || coord.items[1].n > 90.0 then
      Invalid(LatitudeError(i))
    else
      Valid
  }

  /** The loop from index i on, returning at the first failing position. */
  function CheckPositionsFrom(ring: seq<Value>, i: nat): Verdict
    requires i <= |ring|
    decreases |ring| - i
  {
    if i == |ring| then Valid
    else if CheckPosition(ring[i], i).Invalid? then CheckPosition(ring[i], i)
    else CheckPositionsFrom(ring, i + 1)
  }

  /** The closure test: first and last are pairs, strictly equal component-wise. */
  predicate EndsMatch(ring: seq<Value>)
    requires |ring| >= 1
  {
    var first := ring[0];
    var last := ring[|ring| - 1];
    && first.Arr? && last.Arr? && |first.items| == 2 && |last.items| == 2
    && StrictEquals(first.items[0], last.items[0])
    && StrictEquals(first.items[1], last.items[1])
  }

  /** validatePolygonGeometry(coordinates) */
  function ValidateCoordinates(coordinates: Value): Verdict {
    if !coordinates.Arr? || |coordinates.items| == 0 then Invalid(NotNonEmptyArrayError)
    else
      var outerRing := coordinates.items[0];
      if !outerRing.Arr? || |outerRing.items| < 4 then Invalid(OuterRingTooShortError)
      else if !EndsMatch(outerRing.items) then Invalid(NotClosedError)
      else CheckPositionsFrom(outerRing.items, 0)
  }

  // ---------------------------------------------------------------------------
  // Declarative reading
  // ---------------------------------------------------------------------------

  /** `[longitude, latitude]` with longitude in [-180, 180] and latitude in [-90, 90]. */
  predicate IsValidPosition(v: Value) {
    && v.Arr? && |v.items| == 2 && v.items[0].Num? && v.items[1].Num?
    && -180.0 <= v.items[0].n <= 180.0
    && -90.0 <= v.items[1].n <= 90.0
  }

  /** A ring list whose outer ring has at least 4 valid positions and ends where it starts. */
  predicate IsValidOuterRing(coordinates: Value) {
    && coordinates.Arr? && |coordinates.items| > 0
    && var outer := coordinates.items[0];
       && outer.Arr? && |outer.items| >= 4
       && (forall i :: 0 <= i < |outer.items| ==> IsValidPosition(outer.items[i]))
       && outer.items[0] == outer.items[|outer.items| - 1]
  }

  lemma CheckPositionValid(coord: Value, i: nat)
    ensures CheckPosition(coord, i) == Valid <==> IsValidPosition(coord)
  {
  }

  lemma {:induction false} CheckPositionsFromValid(ring: seq<Value>, i: nat)
    requires i <= |ring|
    ensures CheckPositionsFrom(ring, i) == Valid <==> forall j :: i <= j < |ring| ==> IsValidPosition(ring[j])
    decreases |ring| - i
  {
    if i < |ring| {
      CheckPositionValid(ring[i], i);
      CheckPositionsFromValid(ring, i + 1);
    }
  }

  /** For valid positions, the closure test is equality of the first and last pair. */
  lemma EndsMatchValidPositions(ring: seq<Value>)
    requires |ring| >= 1 && IsValidPosition(ring[0]) && IsValidPosition(ring[|ring| - 1])
    ensures EndsMatch(ring) <==> ring[0] == ring[|ring| - 1]
  {
    var first := ring[0];
    var last := ring[|ring| - 1];
    if EndsMatch(ring) {
      assert first.items == [first.items[0], first.items[1]];
      assert last.items == [last.items[0], last.items[1]];
    }
  }

  /** The controller accepts exactly the ring lists with a valid outer ring. */
  lemma ValidateCoordinatesIff(coordinates: Value)
    ensures ValidateCoordinates(coordinates) == Valid <==> IsValidOuterRing(coordinates)
  {
    if coordinates.Arr? && |coordinates.items| > 0 {
      var outer := coordinates.items[0];
      if outer.Arr? && |outer.items| >= 4 {
        CheckPositionsFromValid(outer.items, 0);
        if forall i :: 0 <= i < |outer.items| ==> IsValidPosition(outer.items[i]) {
          EndsMatchValidPositions(outer.items);
        }
      }
    }
  }

  /** A closed outer ring with a bad position is rejected with the first bad index. */
  lemma {:induction false} CheckPositionsFromFirstFailure(ring: seq<Value>, i: nat, k: nat)
    requires i <= k < |ring|
    requires forall j :: i <= j < k ==> IsValidPosition(ring[j])
    requires !IsValidPosition(ring[k])
    ensures CheckPositionsFrom(ring, i) == CheckPosition(ring[k], k)
    ensures CheckPosition(ring[k], k).Invalid?
    decreases k - i
  {
    CheckPositionValid(ring[k], k);
    if i < k {
      CheckPositionValid(ring[i], i);
      CheckPositionsFromFirstFailure(ring, i + 1, k);
    }
  }

  lemma ValidateCoordinatesFirstBadPosition(coordinates: Value, k: nat)
    requires coordinates.Arr? && |coordinates.items| > 0
    requires var outer := coordinates.items[0];
             && outer.Arr? && |outer.items| >= 4 && EndsMatch(outer.items) && k < |outer.items|
             && (forall j :: 0 <= j < k ==> IsValidPosition(outer.items[j]))
             && !IsValidPosition(outer.items[k])
    ensures ValidateCoordinates(coordinates) == CheckPosition(coordinates.items[0].items[k], k)
    ensures ValidateCoordinates(coordinates).Invalid?
  {
    CheckPositionsFromFirstFailure(coordinates.items[0].items, 0, k);
  }

  /** The short-circuit order: the list, then the outer ring's length, then closure. */
  lemma ValidateCoordinatesOrder(coordinates: Value)
    ensures !coordinates.Arr? || |coordinates.items| == 0
            ==> ValidateCoordinates(coordinates) == Invalid(NotNonEmptyArrayError)
    ensures coordinates.Arr? && |coordinates.items| > 0
            && (!coordinates.items[0].Arr? || |coordinates.items[0].items| < 4)
            ==> ValidateCoordinates(coordinates) == Invalid(OuterRingTooShortError)
    ensures coordinates.Arr? && |coordinates.items| > 0
            && coordinates.items[0].Arr? && |coordinates.items[0].items| >= 4
            && !EndsMatch(coordinates.items[0].items)
            ==> ValidateCoordinates(coordinates) == Invalid(NotClosedError)
  {
  }

  /** Hole rings never change the verdict: only the outer ring is read. */
  lemma ValidateCoordinatesOuterOnly(a: Value, b: Value)
    requires a.Arr? && b.Arr? && |a.items| > 0 && |b.items| > 0
    requires a.items[0] == b.items[0]
    ensures ValidateCoordinates(a) == ValidateCoordinates(b)
  {
  }
}
