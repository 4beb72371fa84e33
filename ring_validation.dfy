/** The object-form geometry validator of the polygon service: a geometry is
    `{ outerRing: { coordinates: [...] }, holes: [{ coordinates: [...] }, ...] }`
    and every coordinate is `{ longitude, latitude }`. The outer ring is checked
    first, then each hole in order; the first failing ring's verdict is returned. */
module RingValidation {
  import opened Wrappers
  import opened Text
  import opened Json

  // ---------------------------------------------------------------------------
  // One ring
  // ---------------------------------------------------------------------------

  function TooShortError(ringName: string): string {
    ringName + " must have at least 4 coordinates"
  }

  function NotClosedError(ringName: string): string {
    ringName + " must be closed (first and last coordinates must be the same)"
  }

  function NotNumbersError(ringName: string, i: nat): string {
    ringName + " coordinate " + NatToString(i) + " must have valid longitude and latitude numbers"
  }

  function LongitudeError(ringName: string, i: nat): string {
    ringName + " coordinate " + NatToString(i) + " longitude must be between -180 and 180"
  }

  function LatitudeError(ringName: string, i: nat): string {
    ringName + " coordinate " + NatToString(i) + " latitude must be between -90 and 90"
  }

  /** The checks the source applies to the coordinate at index i, in its order. */
  function CheckCoordinate(coord: Value, ringName: string, i: nat): Verdict {
    if !Truthy(coord) || !Get(coord, "longitude").Num? || !Get(coord, "latitude").Num? then
      Invalid(NotNumbersError(ringName, i))
    else if Get(coord, "longitude").n < -180.0 || Get(coord, "longitude").n > 180.0 then
      Invalid(LongitudeError(ringName, i))
    else if Get(coord, "latitude").n < -90.0 || Get(coord, "latitude").n > 90.0 then
      Invalid(LatitudeError(ringName, i))
    else
      Valid
  }

  /** The for-loop over the coordinates from index i on, returning at the first failure. */
  function CheckCoordinatesFrom(coords: seq<Value>, ringName: string, i: nat): Verdict
    requires i <= |coords|
    decreases |coords| - i
  {
    if i == |coords| then Valid
    else if CheckCoordinate(coords[i], ringName, i).Invalid? then CheckCoordinate(coords[i], ringName, i)
    else CheckCoordinatesFrom(coords, ringName, i + 1)
  }

  /** The closure test: first and last are present and strictly equal in
      longitude and in latitude. */
  predicate EndsMatch(coords: seq<Value>)
    requires |coords| >= 1
  {
    var first := coords[0];
    var last := coords[|coords| - 1];
    && Truthy(first) && Truthy(last)
    && StrictEquals(Get(first, "longitude"), Get(last, "longitude"))
    && StrictEquals(Get(first, "latitude"), Get(last, "latitude"))
  }

  /** validateRing(coordinates, ringName) */
  function ValidateRing(coordinates: Value, ringName: string): Verdict {
    if !coordinates.Arr? || |coordinates.items| < 4 then
      Invalid(TooShortError(ringName))
    else if !EndsMatch(coordinates.items) then
      Invalid(NotClosedError(ringName))
    else
      CheckCoordinatesFrom(coordinates.items, ringName, 0)
  }

  // ---------------------------------------------------------------------------
  // Declarative reading of a valid ring
  // ---------------------------------------------------------------------------

  /** A coordinate object with numeric longitude in [-180,180] and latitude in [-90,90]. */
  predicate IsValidCoordinate(coord: Value) {
    && coord.Obj?
    && Get(coord, "longitude").Num? && -180.0 <= Get(coord, "longitude").n <= 180.0
    && Get(coord, "latitude").Num? && -90.0 <= Get(coord, "latitude").n <= 90.0
  }

  /** An array of at least 4 valid coordinates whose first and last agree exactly. */
  predicate IsValidRing(coordinates: Value) {
    && coordinates.Arr?
    && |coordinates.items| >= 4
    && (forall i :: 0 <= i < |coordinates.items| ==> IsValidCoordinate(coordinates.items[i]))
    && Get(coordinates.items[0], "longitude") == Get(coordinates.items[|coordinates.items| - 1], "longitude")
    && Get(coordinates.items[0], "latitude") == Get(coordinates.items[|coordinates.items| - 1], "latitude")
  }

  lemma CheckCoordinateValid(coord: Value, ringName: string, i: nat)
    ensures CheckCoordinate(coord, ringName, i) == Valid <==> IsValidCoordinate(coord)
  {
  }

  /** The loop accepts exactly when every coordinate from i on is valid. */
  lemma {:induction false} CheckCoordinatesFromValid(coords: seq<Value>, ringName: string, i: nat)
    requires i <= |coords|
    ensures CheckCoordinatesFrom(coords, ringName, i) == Valid
            <==> forall j :: i <= j < |coords| ==> IsValidCoordinate(coords[j])
    decreases |coords| - i
  {
    if i < |coords| {
      CheckCoordinateValid(coords[i], ringName, i);
      CheckCoordinatesFromValid(coords, ringName, i + 1);
    }
  }

  /** The loop reports the first invalid coordinate: its index and the first check it fails. */
  lemma {:induction false} CheckCoordinatesFromFirstFailure(coords: seq<Value>, ringName: string, i: nat, k: nat)
    requires i <= k < |coords|
    requires forall j :: i <= j < k ==> IsValidCoordinate(coords[j])
    requires !IsValidCoordinate(coords[k])
    ensures CheckCoordinatesFrom(coords, ringName, i) == CheckCoordinate(coords[k], ringName, k)
    ensures CheckCoordinate(coords[k], ringName, k).Invalid?
    decreases k - i
  {
    CheckCoordinateValid(coords[k], ringName, k);
    if i < k {
      CheckCoordinateValid(coords[i], ringName, i);
      CheckCoordinatesFromFirstFailure(coords, ringName, i + 1, k);
    }
  }

  /** validateRing accepts exactly the valid rings. */
  lemma ValidateRingIff(coordinates: Value, ringName: string)
    ensures ValidateRing(coordinates, ringName) == Valid <==> IsValidRing(coordinates)
  {
    if coordinates.Arr? && |coordinates.items| >= 4 {
      CheckCoordinatesFromValid(coordinates.items, ringName, 0);
    }
  }

  /** Rejections of validateRing name the ring: too short, or not closed. */
  lemma ValidateRingErrors(coordinates: Value, ringName: string)
    ensures !coordinates.Arr? || |coordinates.items| < 4
            ==> ValidateRing(coordinates, ringName) == Invalid(TooShortError(ringName))
    ensures coordinates.Arr? && |coordinates.items| >= 4
            && (forall i :: 0 <= i < |coordinates.items| ==> IsValidCoordinate(coordinates.items[i]))
            && !IsValidRing(coordinates)
            ==> ValidateRing(coordinates, ringName) == Invalid(NotClosedError(ringName))
    ensures coordinates.Arr? && |coordinates.items| >= 4 && !EndsMatch(coordinates.items)
            ==> ValidateRing(coordinates, ringName) == Invalid(NotClosedError(ringName))
  {
    if coordinates.Arr? && |coordinates.items| >= 4 && EndsMatch(coordinates.items) {
      CheckCoordinatesFromValid(coordinates.items, ringName, 0);
    }
  }

  /** A closed ring with a bad coordinate is rejected with the first bad index
      and the first check that coordinate fails. */
  lemma ValidateRingFirstBadCoordinate(coordinates: Value, ringName: string, k: nat)
    requires coordinates.Arr? && |coordinates.items| >= 4 && k < |coordinates.items|
    requires EndsMatch(coordinates.items)
    requires forall j :: 0 <= j < k ==> IsValidCoordinate(coordinates.items[j])
    requires !IsValidCoordinate(coordinates.items[k])
    ensures ValidateRing(coordinates, ringName) == CheckCoordinate(coordinates.items[k], ringName, k)
    ensures ValidateRing(coordinates, ringName).Invalid?
  {
    CheckCoordinatesFromFirstFailure(coordinates.items, ringName, 0, k);
  }

  // ---------------------------------------------------------------------------
  // Whole geometry
  // ---------------------------------------------------------------------------

  const MissingOuterRingError: string := "Geometry must have an outerRing"

  /** The TypeError thrown while walking the holes: reading `.length` of a
      null `holes`, or `.coordinates` of a null or undefined hole. */
  datatype JsError = TypeError(message: string)

  /** How many indices i = 0, 1, 2, ... pass `i < length`, where the
      comparison converts `length` to a number: a number counts up to its
      ceiling, true counts as 1, a decimal numeral (white space around it
      allowed) as its value, and null, false, the empty string, undefined
      and objects (0 or NaN) let no index through. */
  function IndexCount(length: Value): nat {
    match length
    case Num(n) => if n <= 0.0 then 0 else Ceiling(n)
    case Bool(b) => if b then 1 else 0
    case Str(s) => var t := Trim(s); if t != [] && AllDigits(t) then DigitsValue(t) else 0
    case _ => 0
  }

  /** The least integer not below a positive x. */
  function Ceiling(x: real): (c: nat)
    requires x > 0.0
    ensures x <= c as real < x + 1.0
  {
    if x.Floor as real == x then x.Floor else x.Floor + 1
  }

  /** The elements `holes[i]` for i below `holes.length`. An array gives its
      items, a string its one-character strings, an object its properties
      "0", "1", ... up to its own "length" property (undefined where the key
      is missing); a number or a boolean has no `length`, so the loop does not
      run. */
  function HoleEntries(holes: Value): seq<Value>
    requires !IsNullish(holes)
  {
    match holes
    case Arr(items) => items
    case Str(s) => seq(|s|, i requires 0 <= i < |s| => Str([s[i]]))
    case Obj(fields) =>
      seq(IndexCount(Get(holes, "length")), i requires 0 <= i => Get(holes, NatToString(i)))
    case _ => []
  }

  function HoleName(i: nat): string {
    "Hole " + NatToString(i + 1)
  }

  /** The loop over the holes from index i on. */
  function CheckHolesFrom(holes: seq<Value>, i: nat): Result<Verdict, JsError>
    requires i <= |holes|
    decreases |holes| - i
  {
    if i == |holes| then Success(Valid)
    else if IsNullish(holes[i]) then Failure(TypeError(CannotRead(holes[i], "coordinates")))
    else
      var v := ValidateRing(Get(holes[i], "coordinates"), HoleName(i));
      if v.Invalid? then Success(v) else CheckHolesFrom(holes, i + 1)
  }

  /** validatePolygonGeometry(geometry) of the service: a verdict, or the
      TypeError the source throws on a null `holes` or a null or undefined hole. */
  function ValidatePolygonGeometry(geometry: Value): Result<Verdict, JsError> {
    if !Truthy(geometry) || !Truthy(Get(geometry, "outerRing")) then
      Success(Invalid(MissingOuterRingError))
    else
      var outerRing := Get(geometry, "outerRing");
      var holes := Get(geometry, "holes");  // `holes = []` replaces only undefined
      var outer := ValidateRing(Get(outerRing, "coordinates"), "Outer ring");
      if outer.Invalid? then Success(outer)
      else if holes.Undefined? then Success(Valid)
      else if holes.Null? then Failure(TypeError(CannotRead(holes, "length")))
      else CheckHolesFrom(HoleEntries(holes), 0)
  }

  /** A hole that is present and whose coordinates form a valid ring. */
  predicate IsValidHole(hole: Value) {
    !IsNullish(hole) && IsValidRing(Get(hole, "coordinates"))
  }

  /** A geometry object whose outer ring and every hole are valid rings. */
  predicate IsValidGeometry(geometry: Value) {
    && Truthy(geometry)
    && Truthy(Get(geometry, "outerRing"))
    && IsValidRing(Get(Get(geometry, "outerRing"), "coordinates"))
    && var holes := Get(geometry, "holes");
       (holes.Undefined? ||
        (!holes.Null? && forall i :: 0 <= i < |HoleEntries(holes)| ==> IsValidHole(HoleEntries(holes)[i])))
  }

  /** One iteration of the holes loop: it goes on exactly past a valid hole. */
  lemma CheckHolesStep(holes: seq<Value>, i: nat)
    requires i < |holes|
    ensures CheckHolesFrom(holes, i) == Success(Valid)
            <==> IsValidHole(holes[i]) && CheckHolesFrom(holes, i + 1) == Success(Valid)
  {
    if !IsNullish(holes[i]) {
      ValidateRingIff(Get(holes[i], "coordinates"), HoleName(i));
    }
  }

  lemma {:induction false} CheckHolesFromValid(holes: seq<Value>, i: nat)
    requires i <= |holes|
    ensures CheckHolesFrom(holes, i) == Success(Valid)
            <==> forall j :: i <= j < |holes| ==> IsValidHole(holes[j])
    decreases |holes| - i
  {
    if i < |holes| {
      CheckHolesStep(holes, i);
      CheckHolesFromValid(holes, i + 1);
      assert (forall j :: i <= j < |holes| ==> IsValidHole(holes[j]))
             <==> IsValidHole(holes[i]) && forall j :: i + 1 <= j < |holes| ==> IsValidHole(holes[j]);
    }
  }

  /** The service validator accepts exactly the geometries whose rings are all valid. */
  lemma ValidatePolygonGeometryIff(geometry: Value)
    ensures ValidatePolygonGeometry(geometry) == Success(Valid) <==> IsValidGeometry(geometry)
  {
    if Truthy(geometry) && Truthy(Get(geometry, "outerRing")) {
      ValidateRingIff(Get(Get(geometry, "outerRing"), "coordinates"), "Outer ring");
      var holes := Get(geometry, "holes");
      if !IsNullish(holes) {
        CheckHolesFromValid(HoleEntries(holes), 0);
      }
    }
  }

  /** The first failing hole decides the verdict, labelled "Hole k+1"; holes
      after it are never looked at. */
  lemma {:induction false} CheckHolesFromFirstFailure(holes: seq<Value>, i: nat, k: nat)
    requires i <= k < |holes|
    requires forall j :: i <= j < k ==> IsValidHole(holes[j])
    requires !IsNullish(holes[k]) && !IsValidRing(Get(holes[k], "coordinates"))
    ensures CheckHolesFrom(holes, i) == Success(ValidateRing(Get(holes[k], "coordinates"), HoleName(k)))
    ensures ValidateRing(Get(holes[k], "coordinates"), HoleName(k)).Invalid?
    decreases k - i
  {
    ValidateRingIff(Get(holes[k], "coordinates"), HoleName(k));
    if i < k {
      ValidateRingIff(Get(holes[i], "coordinates"), HoleName(i));
      CheckHolesFromFirstFailure(holes, i + 1, k);
    }
  }

  /** With a valid outer ring and an array of holes, the first invalid hole's
      own verdict is the result; an invalid outer ring decides before any hole. */
  lemma ValidatePolygonGeometryRingOrder(geometry: Value, k: nat)
    requires Truthy(geometry) && Truthy(Get(geometry, "outerRing"))
    ensures !IsValidRing(Get(Get(geometry, "outerRing"), "coordinates"))
            ==> ValidatePolygonGeometry(geometry)
                == Success(ValidateRing(Get(Get(geometry, "outerRing"), "coordinates"), "Outer ring"))
    ensures var holes := Get(geometry, "holes");
            && IsValidRing(Get(Get(geometry, "outerRing"), "coordinates"))
            && !IsNullish(holes) && k < |HoleEntries(holes)|
            && (forall j :: 0 <= j < k ==> IsValidHole(HoleEntries(holes)[j]))
            && !IsNullish(HoleEntries(holes)[k]) && !IsValidRing(Get(HoleEntries(holes)[k], "coordinates"))
            ==> ValidatePolygonGeometry(geometry)
                == Success(ValidateRing(Get(HoleEntries(holes)[k], "coordinates"), HoleName(k)))
  {
    ValidateRingIff(Get(Get(geometry, "outerRing"), "coordinates"), "Outer ring");
    var holes := Get(geometry, "holes");
    if IsValidRing(Get(Get(geometry, "outerRing"), "coordinates")) && !IsNullish(holes) && k < |HoleEntries(holes)|
       && (forall j :: 0 <= j < k ==> IsValidHole(HoleEntries(holes)[j]))
       && !IsNullish(HoleEntries(holes)[k]) && !IsValidRing(Get(HoleEntries(holes)[k], "coordinates"))
    {
      CheckHolesFromFirstFailure(HoleEntries(holes), 0, k);
    }
  }

  /** An array-like object of holes is walked up to its own "length": the
      first index with no property reads `.coordinates` of undefined and throws,
      once the holes before it are valid. */
  lemma {:induction false} ArrayLikeHolesMissingIndex(geometry: Value, k: nat)
    requires Truthy(geometry) && Truthy(Get(geometry, "outerRing"))
    requires IsValidRing(Get(Get(geometry, "outerRing"), "coordinates"))
    requires var holes := Get(geometry, "holes");
             && holes.Obj? && Get(holes, "length") == Num((k + 1) as real)
             && NatToString(k) !in holes.fields
             && forall j :: 0 <= j < k ==> IsValidHole(Get(holes, NatToString(j)))
    ensures ValidatePolygonGeometry(geometry)
            == Failure(TypeError(CannotRead(Undefined, "coordinates")))
  {
    var holes := Get(geometry, "holes");
    var entries := HoleEntries(holes);
    ArrayLikeEntries(holes, k);
    CheckHolesFromFirstThrow(entries, 0, k);
    ValidateRingIff(Get(Get(geometry, "outerRing"), "coordinates"), "Outer ring");
  }

  /** An array-like object of holes is checked like an array: with a valid
      outer ring, its first invalid hole below "length" is reported by name. */
  lemma ArrayLikeHolesFirstInvalid(geometry: Value, n: nat, k: nat)
    requires Truthy(geometry) && Truthy(Get(geometry, "outerRing"))
    requires IsValidRing(Get(Get(geometry, "outerRing"), "coordinates"))
    requires var holes := Get(geometry, "holes");
             && holes.Obj? && Get(holes, "length") == Num((n + 1) as real) && k <= n
             && (forall j :: 0 <= j < k ==> IsValidHole(Get(holes, NatToString(j))))
             && !IsNullish(Get(holes, NatToString(k)))
             && !IsValidRing(Get(Get(holes, NatToString(k)), "coordinates"))
    ensures var hole := Get(Get(geometry, "holes"), NatToString(k));
            ValidatePolygonGeometry(geometry) == Success(ValidateRing(Get(hole, "coordinates"), HoleName(k)))
  {
    var holes := Get(geometry, "holes");
    ArrayLikeEntries(holes, n);
    ValidatePolygonGeometryRingOrder(geometry, k);
  }

  /** The entries of an object whose "length" is k+1 are its properties "0" to "k". */
  lemma ArrayLikeEntries(holes: Value, k: nat)
    requires holes.Obj? && Get(holes, "length") == Num((k + 1) as real)
    ensures |HoleEntries(holes)| == k + 1
    ensures forall j :: 0 <= j <= k ==> HoleEntries(holes)[j] == Get(holes, NatToString(j))
  {
    assert IndexCount(Num((k + 1) as real)) == k + 1;
  }

  /** The first nullish hole behind valid ones makes the loop throw. */
  lemma {:induction false} CheckHolesFromFirstThrow(holes: seq<Value>, i: nat, k: nat)
    requires i <= k < |holes|
    requires forall j :: i <= j < k ==> IsValidHole(holes[j])
    requires IsNullish(holes[k])
    ensures CheckHolesFrom(holes, i) == Failure(TypeError(CannotRead(holes[k], "coordinates")))
    decreases k - i
  {
    if i < k {
      ValidateRingIff(Get(holes[i], "coordinates"), HoleName(i));
      CheckHolesFromFirstThrow(holes, i + 1, k);
    }
  }

  /** A missing geometry or a missing outer ring is rejected with the same message. */
  lemma MissingOuterRingRejected(geometry: Value)
    requires !Truthy(geometry) || !Truthy(Get(geometry, "outerRing"))
    ensures ValidatePolygonGeometry(geometry) == Success(Invalid("Geometry must have an outerRing"))
  {
  }
}
