/** convertToGeoJSONCoordinates of the polygon controller: a request geometry
    becomes the coordinate array of a GeoJSON Polygon (a list of rings, the
    outer ring first, each position `[longitude, latitude]`, section 3.1.6 of
    RFC 7946). The geometry either carries that array already or uses the
    legacy shape `{ outerRing: { coordinates }, holes: [{ coordinates }] }`
    with `{ longitude, latitude }` positions. */
module GeometryConversion {
  import opened Wrappers
  import opened Json

  /** Why the conversion throws. The source rethrows every error as
      "Failed to convert geometry: " followed by the original message. */
  datatype ConversionError =
    | InvalidGeometryFormat
      /** a property read on null or undefined */
    | CannotReadProperty(of: Value, key: string)
      /** `.map` called on a value that is not an array */
    | NotAFunction(callee: string)
  {
    function Message(): string {
      "Failed to convert geometry: " +
      match this
      case InvalidGeometryFormat => "Invalid geometry format"
      case CannotReadProperty(of, key) =>
        "Cannot read properties of " + (if of.Null? then "null" else "undefined") + " (reading '" + key + "')"
      case NotAFunction(callee) => callee + " is not a function"
    }
  }

  const OuterRingMap: string := "inputGeometry.outerRing.coordinates.map"
  const HoleMap: string := "hole.coordinates.map"

  /** The `.map` callback: an object with a longitude and a latitude becomes
      `[longitude, latitude]`; anything else passes through; null throws. */
  function ConvertPosition(coord: Value): Result<Value, ConversionError> {
    if coord.Null? then Failure(CannotReadProperty(coord, "longitude"))
    else if IsObjectType(coord) && Get(coord, "longitude") != Undefined && Get(coord, "latitude") != Undefined then
      Success(Arr([Get(coord, "longitude"), Get(coord, "latitude")]))
    else Success(coord)
  }

  /** `coordinates.map(convert)`: every position converted, in order; the first
      position that throws decides the error. */
  function ConvertRing(coords: seq<Value>): (r: Result<seq<Value>, ConversionError>)
    ensures r.Success? ==> |r.value| == |coords|
  {
    if coords == [] then Success([])
    else
      match ConvertPosition(coords[0])
      case Failure(e) => Failure(e)
      case Success(p) =>
        match ConvertRing(coords[1..])
        case Failure(e) => Failure(e)
        case Success(rest) => Success([p] + rest)
  }

  /** One `forEach` step over the holes: None for a hole without coordinates,
      the converted ring for a hole with them. */
  function ConvertHole(hole: Value): Result<Option<Value>, ConversionError> {
    if IsNullish(hole) then Failure(CannotReadProperty(hole, "coordinates"))
    else if !Truthy(Get(hole, "coordinates")) then Success(None)
    else if !Get(hole, "coordinates").Arr? then Failure(NotAFunction(HoleMap))
    else
      match ConvertRing(Get(hole, "coordinates").items)
      case Failure(e) => Failure(e)
      case Success(ring) => Success(Some(Arr(ring)))
  }

  /** The rings pushed for the first k holes, or the error of the first hole that throws. */
  function ConvertHoles(holes: seq<Value>, k: nat): Result<seq<Value>, ConversionError>
    requires k <= |holes|
  {
    if k == 0 then Success([])
    else
      match ConvertHoles(holes, k - 1)
      case Failure(e) => Failure(e)
      case Success(rings) =>
        match ConvertHole(holes[k - 1])
        case Failure(e) => Failure(e)
        case Success(None) => Success(rings)
        case Success(Some(ring)) => Success(rings + [ring])
  }

  /** The holes the legacy branch walks: `holes` when it is a (truthy) array, none otherwise. */
  function LegacyHoles(inputGeometry: Value): seq<Value>
    requires !IsNullish(inputGeometry)
  {
    var holes := Get(inputGeometry, "holes");
    if holes.Arr? then holes.items else []
  }

  /** Whether the legacy branch is taken: `inputGeometry.outerRing && inputGeometry.outerRing.coordinates`. */
  predicate HasLegacyOuterRing(inputGeometry: Value)
    requires !IsNullish(inputGeometry)
  {
    Truthy(Get(inputGeometry, "outerRing")) && Truthy(Get(Get(inputGeometry, "outerRing"), "coordinates"))
  }

  /** What convertToGeoJSONCoordinates returns or throws. */
  function Normalize(inputGeometry: Value): Result<Value, ConversionError> {
    if IsNullish(inputGeometry) then Failure(CannotReadProperty(inputGeometry, "coordinates"))
    else if Get(inputGeometry, "coordinates").Arr? then Success(Get(inputGeometry, "coordinates"))
    else if !HasLegacyOuterRing(inputGeometry) then Failure(InvalidGeometryFormat)
    else
      var outerCoordinates := Get(Get(inputGeometry, "outerRing"), "coordinates");
      if !outerCoordinates.Arr? then Failure(NotAFunction(OuterRingMap))
      else
        match ConvertRing(outerCoordinates.items)
        case Failure(e) => Failure(e)
        case Success(outer) =>
          var holes := LegacyHoles(inputGeometry);
          match ConvertHoles(holes, |holes|)
          case Failure(e) => Failure(e)
          case Success(rings) => Success(Arr([Arr(outer)] + rings))
  }

  /** convertToGeoJSONCoordinates(inputGeometry): the outer ring is pushed,
      then the ring of every hole that has coordinates, in order. */
  method ConvertToGeoJSONCoordinates(inputGeometry: Value) returns (r: Result<Value, ConversionError>)
    ensures r == Normalize(inputGeometry)
  {
    if IsNullish(inputGeometry) {
      return Failure(CannotReadProperty(inputGeometry, "coordinates"));
    }
    if Get(inputGeometry, "coordinates").Arr? {
      return Success(Get(inputGeometry, "coordinates"));
    }
    if !HasLegacyOuterRing(inputGeometry) {
      return Failure(InvalidGeometryFormat);
    }
    var outerCoordinates := Get(Get(inputGeometry, "outerRing"), "coordinates");
    if !outerCoordinates.Arr? {
      return Failure(NotAFunction(OuterRingMap));
    }
    var outerRing := ConvertRing(outerCoordinates.items);
    if outerRing.Failure? {
      return Failure(outerRing.error);
    }
    var coordinates: seq<Value> := [Arr(outerRing.value)];
    var holes := LegacyHoles(inputGeometry);
    var i := 0;
    while i < |holes|
      invariant 0 <= i <= |holes|
      invariant ConvertHoles(holes, i).Success?
      invariant coordinates == [Arr(outerRing.value)] + ConvertHoles(holes, i).value
    {
      var hole := ConvertHole(holes[i]);
      if hole.Failure? {
        ConvertHolesStopsAtFailure(holes, i + 1, |holes|);
        return Failure(hole.error);
      }
      if hole.value.Some? {
        coordinates := coordinates + [hole.value.value];
      }
      i := i + 1;
    }
    r := Success(Arr(coordinates));
  }

  /** Once a hole throws, no later hole changes the error. */
  lemma {:induction false} ConvertHolesStopsAtFailure(holes: seq<Value>, k: nat, m: nat)
    requires k <= m <= |holes|
    requires ConvertHoles(holes, k).Failure?
    ensures ConvertHoles(holes, m) == ConvertHoles(holes, k)
    decreases m - k
  {
    if k < m {
      ConvertHolesStopsAtFailure(holes, k, m - 1);
    }
  }

  // ---------------------------------------------------------------------------
  // Properties
  // ---------------------------------------------------------------------------

  /** The number of holes among the first k whose coordinates are truthy. */
  function CountWithCoordinates(holes: seq<Value>, k: nat): nat
    requires k <= |holes|
  {
    if k == 0 then 0
    else CountWithCoordinates(holes, k - 1)
         + if !IsNullish(holes[k - 1]) && Truthy(Get(holes[k - 1], "coordinates")) then 1 else 0
  }

  /** One ring per hole with coordinates: holes without them are skipped. */
  lemma {:induction false} ConvertHolesCount(holes: seq<Value>, k: nat)
    requires k <= |holes|
    requires ConvertHoles(holes, k).Success?
    ensures |ConvertHoles(holes, k).value| == CountWithCoordinates(holes, k)
    ensures forall j :: 0 <= j < k ==> !IsNullish(holes[j])
  {
    if k > 0 {
      ConvertHolesStopsAtFailureBack(holes, k);
      ConvertHolesCount(holes, k - 1);
    }
  }

  /** A successful prefix run means the shorter prefix succeeded too. */
  lemma ConvertHolesStopsAtFailureBack(holes: seq<Value>, k: nat)
    requires 0 < k <= |holes|
    requires ConvertHoles(holes, k).Success?
    ensures ConvertHoles(holes, k - 1).Success?
    ensures ConvertHole(holes[k - 1]).Success?
  {
  }

  /** The legacy output has the outer ring first and one more ring per hole
      that has coordinates. */
  lemma LegacyOutputLength(inputGeometry: Value)
    requires !IsNullish(inputGeometry) && !Get(inputGeometry, "coordinates").Arr?
    requires Normalize(inputGeometry).Success?
    ensures Normalize(inputGeometry).value.Arr?
    ensures var holes := LegacyHoles(inputGeometry);
            |Normalize(inputGeometry).value.items| == 1 + CountWithCoordinates(holes, |holes|)
  {
    var holes := LegacyHoles(inputGeometry);
    ConvertHolesCount(holes, |holes|);
  }

  /** A converted geometry is always an array. */
  lemma NormalizeGivesArray(inputGeometry: Value)
    requires Normalize(inputGeometry).Success?
    ensures Normalize(inputGeometry).value.Arr?
  {
  }

  /** The stored geometry `{ type: "Polygon", coordinates }`. */
  function StoredGeometry(coordinates: Value): Value {
    Obj(map["type" := Str("Polygon"), "coordinates" := coordinates])
  }

  /** Converting a geometry the controller has stored gives back its coordinates:
      the conversion is idempotent on its own output. */
  lemma NormalizeStoredGeometry(inputGeometry: Value)
    requires Normalize(inputGeometry).Success?
    ensures Normalize(StoredGeometry(Normalize(inputGeometry).value)) == Normalize(inputGeometry)
  {
  }

  /** A geometry already carrying an array of coordinates is returned as it is. */
  lemma NormalizeKeepsArrayForm(inputGeometry: Value)
    requires !IsNullish(inputGeometry) && Get(inputGeometry, "coordinates").Arr?
    ensures Normalize(inputGeometry) == Success(Get(inputGeometry, "coordinates"))
  {
  }

  // Legacy and GeoJSON encodings of the same rings

  datatype Position = Position(longitude: real, latitude: real)

  function LegacyPosition(p: Position): Value {
    Obj(map["longitude" := Num(p.longitude), "latitude" := Num(p.latitude)])
  }

  function GeoJsonPosition(p: Position): Value {
    Arr([Num(p.longitude), Num(p.latitude)])
  }

  function LegacyRing(ring: seq<Position>): seq<Value> {
    seq(|ring|, i requires 0 <= i < |ring| => LegacyPosition(ring[i]))
  }

  function GeoJsonRing(ring: seq<Position>): Value {
    Arr(seq(|ring|, i requires 0 <= i < |ring| => GeoJsonPosition(ring[i])))
  }

  function LegacyHole(ring: seq<Position>): Value {
    Obj(map["coordinates" := Arr(LegacyRing(ring))])
  }

  /** `{ outerRing: { coordinates }, holes: [{ coordinates }, ...] }` for outer ring rings[0]. */
  function LegacyGeometry(rings: seq<seq<Position>>): Value
    requires |rings| >= 1
  {
    Obj(map[
      "outerRing" := LegacyHole(rings[0]),
      "holes" := Arr(seq(|rings| - 1, i requires 0 <= i < |rings| - 1 => LegacyHole(rings[i + 1])))])
  }

  function GeoJsonCoordinates(rings: seq<seq<Position>>): Value {
    Arr(seq(|rings|, i requires 0 <= i < |rings| => GeoJsonRing(rings[i])))
  }

  /** `.map` converts position by position. */
  lemma {:induction false} ConvertRingElementwise(items: seq<Value>, out: seq<Value>)
    requires |items| == |out|
    requires forall j :: 0 <= j < |items| ==> ConvertPosition(items[j]) == Success(out[j])
    ensures ConvertRing(items) == Success(out)
  {
    if items != [] {
      ConvertRingElementwise(items[1..], out[1..]);
      assert out == [out[0]] + out[1..];
    }
  }

  lemma ConvertLegacyPosition(p: Position)
    ensures ConvertPosition(LegacyPosition(p)) == Success(GeoJsonPosition(p))
  {
    var v := LegacyPosition(p);
    assert Get(v, "longitude") == Num(p.longitude);
    assert Get(v, "latitude") == Num(p.latitude);
  }

  lemma ConvertLegacyRing(ring: seq<Position>)
    ensures ConvertRing(LegacyRing(ring)) == Success(GeoJsonRing(ring).items)
  {
    forall j | 0 <= j < |ring|
      ensures ConvertPosition(LegacyRing(ring)[j]) == Success(GeoJsonRing(ring).items[j])
    {
      ConvertLegacyPosition(ring[j]);
    }
    ConvertRingElementwise(LegacyRing(ring), GeoJsonRing(ring).items);
  }

  /** `[longitude, latitude]` arrays pass through the conversion unchanged. */
  lemma ConvertRingPassesArrays(items: seq<Value>)
    requires forall i :: 0 <= i < |items| ==> items[i].Arr?
    ensures ConvertRing(items) == Success(items)
  {
    forall j | 0 <= j < |items|
      ensures ConvertPosition(items[j]) == Success(items[j])
    {
      assert Get(items[j], "longitude") == Undefined;
    }
    ConvertRingElementwise(items, items);
  }

  /** The hole loop pushes one ring per hole when every hole has coordinates. */
  lemma {:induction false} ConvertHolesElementwise(holes: seq<Value>, rings: seq<Value>, k: nat)
    requires k <= |holes| == |rings|
    requires forall j :: 0 <= j < |holes| ==> ConvertHole(holes[j]) == Success(Some(rings[j]))
    ensures ConvertHoles(holes, k) == Success(rings[..k])
  {
    if k > 0 {
      ConvertHolesElementwise(holes, rings, k - 1);
      assert rings[..k] == rings[..k - 1] + [rings[k - 1]];
    }
  }

  lemma ConvertLegacyHole(ring: seq<Position>)
    ensures ConvertHole(LegacyHole(ring)) == Success(Some(GeoJsonRing(ring)))
  {
    assert Get(LegacyHole(ring), "coordinates") == Arr(LegacyRing(ring));
    ConvertLegacyRing(ring);
  }

  lemma LegacyGeometryParts(rings: seq<seq<Position>>)
    requires |rings| >= 1
    ensures var g := LegacyGeometry(rings);
            && !Get(g, "coordinates").Arr?
            && HasLegacyOuterRing(g)
            && Get(Get(g, "outerRing"), "coordinates") == Arr(LegacyRing(rings[0]))
            && |LegacyHoles(g)| == |rings| - 1
            && forall j :: 0 <= j < |rings| - 1 ==> LegacyHoles(g)[j] == LegacyHole(rings[j + 1])
  {
    var g := LegacyGeometry(rings);
    assert Get(g, "coordinates") == Undefined;
    assert Get(g, "outerRing") == LegacyHole(rings[0]);
  }

  /** In the legacy shape the result is the converted outer ring followed by
      the rings of the hole loop. */
  lemma NormalizeLegacyShape(g: Value, outer: seq<Value>, rings: seq<Value>)
    requires !IsNullish(g) && !Get(g, "coordinates").Arr? && HasLegacyOuterRing(g)
    requires Get(Get(g, "outerRing"), "coordinates").Arr?
    requires ConvertRing(Get(Get(g, "outerRing"), "coordinates").items) == Success(outer)
    requires ConvertHoles(LegacyHoles(g), |LegacyHoles(g)|) == Success(rings)
    ensures Normalize(g) == Success(Arr([Arr(outer)] + rings))
  {
  }

  /** Round trip: the legacy encoding of rings converts to their GeoJSON
      encoding, and that encoding, stored, converts to itself. */
  lemma LegacyRoundTrip(rings: seq<seq<Position>>)
    requires |rings| >= 1
    ensures Normalize(LegacyGeometry(rings)) == Success(GeoJsonCoordinates(rings))
    ensures Normalize(StoredGeometry(GeoJsonCoordinates(rings))) == Success(GeoJsonCoordinates(rings))
  {
    var g := LegacyGeometry(rings);
    LegacyGeometryParts(rings);
    var holes := LegacyHoles(g);
    var all := GeoJsonCoordinates(rings).items;
    forall j | 0 <= j < |holes|
      ensures ConvertHole(holes[j]) == Success(Some(all[1..][j]))
    {
      ConvertLegacyHole(rings[j + 1]);
    }
    ConvertHolesElementwise(holes, all[1..], |holes|);
    assert all[1..][..|holes|] == all[1..];
    ConvertLegacyRing(rings[0]);
    assert all[0] == Arr(GeoJsonRing(rings[0]).items);
    assert all == [all[0]] + all[1..];
    NormalizeLegacyShape(g, GeoJsonRing(rings[0]).items, all[1..]);
    assert Get(StoredGeometry(GeoJsonCoordinates(rings)), "coordinates") == GeoJsonCoordinates(rings);
  }
}
