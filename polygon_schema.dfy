/** The polygon model: the rules its schema enforces when a document is
    saved (the closed-outer-ring check on the coordinates, hex colours,
    numeric ranges, the type enumerations, a required name), the defaults
    it fills in, the `coordinateCount` virtual and the `toGeoJSON` method
    that turns a document into a GeoJSON Feature (section 3.2 of RFC 7946).
    Documents are taken after casting: coordinates are numbers, strings have
    been trimmed where the schema says so. */
module PolygonSchema {
  import opened Wrappers
  import opened Text
  import opened Json
  import GeometryConversion
  import CoordinatesValidation

  // ---------------------------------------------------------------------------
  // Documents
  // ---------------------------------------------------------------------------

  /** `[[[Number]]]`: rings of positions of numbers. */
  type Rings = seq<seq<seq<real>>>

  datatype Geometry = Geometry(kind: string, coordinates: Rings)

  datatype Style = Style(fillColor: string, fillOpacity: real, strokeColor: string, strokeWidth: real, strokeOpacity: real)

  datatype Extrusion = Extrusion(height: real, base: real, color: string, opacity: real)

  datatype Polygon = Polygon(
    id: string,
    name: string,
    description: Option<string>,
    polygonType: string,
    geometry: Geometry,
    style: Style,
    extrusion: Extrusion,
    marker: Option<string>,
    properties: map<string, Value>,
    isVisible: bool,
    isInteractive: bool,
    minZoom: real,
    maxZoom: real)

  const PolygonTypes: seq<string> := ["building", "area", "zone", "boundary", "venue", "park", "parking", "other"]
  const DefaultPolygonType: string := "building"
  const DefaultStyle: Style := Style("#0000FF", 0.8, "#000000", 1.0, 1.0)
  const DefaultExtrusion: Extrusion := Extrusion(50.0, 0.0, "#0000FF", 0.8)
  const DefaultMinZoom: real := 0.0
  const DefaultMaxZoom: real := 24.0

  /** A new document: the given name (trimmed) and coordinates, every other
      path at its schema default. */
  function NewPolygon(id: string, name: string, coordinates: Rings): Polygon {
    Polygon(id, Trim(name), None, DefaultPolygonType, Geometry("Polygon", coordinates),
            DefaultStyle, DefaultExtrusion, None, map[], true, true, DefaultMinZoom, DefaultMaxZoom)
  }

  // ---------------------------------------------------------------------------
  // The coordinates validator
  // ---------------------------------------------------------------------------

  /** `position[i]`: undefined past the end. */
  function Component(position: seq<real>, i: nat): Option<real> {
    if i < |position| then Some(position[i]) else None
  }

  /** The custom validator of `geometry.coordinates`: a first ring of at least
      four positions whose first and last agree on components 0 and 1. */
  predicate CoordinatesValid(coords: Rings) {
    && |coords| > 0
    && |coords[0]| >= 4
    && var first, last := coords[0][0], coords[0][|coords[0]| - 1];
       Component(first, 0) == Component(last, 0) && Component(first, 1) == Component(last, 1)
  }

  /** The validator's verdict depends only on the first ring. */
  lemma CoordinatesValidOuterOnly(a: Rings, b: Rings)
    requires |a| > 0 && |b| > 0 && a[0] == b[0]
    ensures CoordinatesValid(a) == CoordinatesValid(b)
  {
  }

  /** For positions of two numbers, the check is equality of the first and last position. */
  lemma CoordinatesValidPairs(coords: Rings)
    requires |coords| > 0 && |coords[0]| >= 4
    requires |coords[0][0]| == 2 && |coords[0][|coords[0]| - 1]| == 2
    ensures CoordinatesValid(coords) <==> coords[0][0] == coords[0][|coords[0]| - 1]
  {
    var first, last := coords[0][0], coords[0][|coords[0]| - 1];
    if CoordinatesValid(coords) {
      assert first == [first[0], first[1]] && last == [last[0], last[1]];
    }
  }

  /** The JSON form of cast coordinates. */
  function PositionValue(position: seq<real>): (v: Value)
    ensures v.Arr? && |v.items| == |position|
  {
    Arr(seq(|position|, k requires 0 <= k < |position| => Num(position[k])))
  }

  function RingValue(ring: seq<seq<real>>): (v: Value)
    ensures v.Arr? && |v.items| == |ring|
  {
    Arr(seq(|ring|, j requires 0 <= j < |ring| => PositionValue(ring[j])))
  }

  function RingsValue(coords: Rings): (v: Value)
    ensures v.Arr? && |v.items| == |coords|
  {
    Arr(seq(|coords|, i requires 0 <= i < |coords| => RingValue(coords[i])))
  }

  /** Casting to `[[[Number]]]`, for values that are already arrays of arrays of arrays of numbers. */
  function PositionCast(v: Value): Option<seq<real>> {
    if v.Arr? && forall k :: 0 <= k < |v.items| ==> v.items[k].Num? then
      Some(seq(|v.items|, k requires 0 <= k < |v.items| => v.items[k].n))
    else None
  }

  function RingCast(v: Value): Option<seq<seq<real>>> {
    if v.Arr? && forall j :: 0 <= j < |v.items| ==> PositionCast(v.items[j]).Some? then
      Some(seq(|v.items|, j requires 0 <= j < |v.items| => PositionCast(v.items[j]).value))
    else None
  }

  function RingsCast(v: Value): Option<Rings> {
    if v.Arr? && forall i :: 0 <= i < |v.items| ==> RingCast(v.items[i]).Some? then
      Some(seq(|v.items|, i requires 0 <= i < |v.items| => RingCast(v.items[i]).value))
    else None
  }

  lemma PositionCastRoundTrip(position: seq<real>)
    ensures PositionCast(PositionValue(position)) == Some(position)
  {
    var v := PositionValue(position);
    assert seq(|v.items|, k requires 0 <= k < |v.items| => v.items[k].n) == position;
  }

  lemma RingCastRoundTrip(ring: seq<seq<real>>)
    ensures RingCast(RingValue(ring)) == Some(ring)
  {
    var v := RingValue(ring);
    forall j | 0 <= j < |ring| ensures PositionCast(v.items[j]) == Some(ring[j]) {
      PositionCastRoundTrip(ring[j]);
    }
    assert seq(|v.items|, j requires 0 <= j < |v.items| => PositionCast(v.items[j]).value) == ring;
  }

  /** Casting the JSON form gives the coordinates back. */
  lemma RingsCastRoundTrip(coords: Rings)
    ensures RingsCast(RingsValue(coords)) == Some(coords)
  {
    var v := RingsValue(coords);
    forall i | 0 <= i < |coords| ensures RingCast(v.items[i]) == Some(coords[i]) {
      RingCastRoundTrip(coords[i]);
    }
    assert seq(|v.items|, i requires 0 <= i < |v.items| => RingCast(v.items[i]).value) == coords;
  }

  /** The schema never refuses coordinates the controller's validator has
      accepted: a valid outer ring is closed on both components. */
  lemma ControllerValidImpliesSchemaValid(v: Value)
    requires CoordinatesValidation.ValidateCoordinates(v) == Valid
    requires RingsCast(v).Some?
    ensures CoordinatesValid(RingsCast(v).value)
  {
    CoordinatesValidation.ValidateCoordinatesIff(v);
    var outer := v.items[0];
    var n := |outer.items|;
    assert CoordinatesValidation.IsValidPosition(outer.items[0]);
    assert outer.items[0] == outer.items[n - 1];
    var coords := RingsCast(v).value;
    assert coords[0] == RingCast(outer).value;
    assert coords[0][0] == PositionCast(outer.items[0]).value;
    assert coords[0][n - 1] == PositionCast(outer.items[n - 1]).value;
  }

  // ---------------------------------------------------------------------------
  // Colours and numeric ranges
  // ---------------------------------------------------------------------------

  predicate IsHexDigit(c: char) {
    ('0' <= c <= '9') || ('a' <= c <= 'f') || ('A' <= c <= 'F')
  }

  /** `[A-Fa-f0-9]{n}` matching the whole of s. */
  predicate HexRun(s: string, n: nat) {
    |s| == n && forall i :: 0 <= i < |s| ==> IsHexDigit(s[i])
  }

  /** `/^#([A-Fa-f0-9]{6}|[A-Fa-f0-9]{3})$/.test(color)` */
  predicate IsHexColor(color: string) {
    |color| >= 1 && color[0] == '#' && (HexRun(color[1..], 6) || HexRun(color[1..], 3))
  }

  /** A colour is `#` and then exactly six or exactly three hex digits, in
      either case; lower-casing never changes the verdict. */
  lemma HexColorIff(color: string)
    ensures IsHexColor(color) <==>
              (|color| == 7 || |color| == 4) && color[0] == '#'
              && forall i :: 1 <= i < |color| ==> IsHexDigit(color[i])
    ensures IsHexColor(color) == IsHexColor(Lower(color))
  {
    var lower := Lower(color);
    if |color| >= 1 {
      assert lower[1..] == Lower(color[1..]);
      forall i | 0 <= i < |color| - 1 ensures IsHexDigit(color[1..][i]) == IsHexDigit(lower[1..][i]) {
        assert lower[1..][i] == LowerChar(color[i + 1]);
      }
      if IsHexColor(color) {
        forall i | 1 <= i < |color| ensures IsHexDigit(color[i]) {
          assert color[i] == color[1..][i - 1];
        }
      }
    }
  }

  /** The defaults, a full and a short colour pass; four digits or a missing `#` do not. */
  lemma HexColorExamples()
    ensures IsHexColor("#0000FF") && IsHexColor("#000000") && IsHexColor("#F00") && IsHexColor("#ff0000")
    ensures !IsHexColor("#FF00") && !IsHexColor("FF0000") && !IsHexColor("#GG0000")
  {
    assert !HexRun("FF00", 6) && !HexRun("FF00", 3);
    assert "FF0000"[0] != '#';
    assert !IsHexDigit("GG0000"[0]);
  }

  /** A numeric path's `min`, optional `max`. */
  datatype Range = Range(min: real, max: Option<real>)

  predicate Admits(range: Range, x: real) {
    range.min <= x && (range.max.None? || x <= range.max.value)
  }

  const OpacityRange: Range := Range(0.0, Some(1.0))
  const StrokeWidthRange: Range := Range(0.0, Some(10.0))
  const HeightRange: Range := Range(0.0, Some(1000.0))
  const BaseRange: Range := Range(0.0, None)
  const ZoomRange: Range := Range(0.0, Some(24.0))

  // ---------------------------------------------------------------------------
  // Validation of a whole document
  // ---------------------------------------------------------------------------

  /** The paths whose validators fail, in schema order. */
  function Violations(p: Polygon): seq<string> {
    (if p.name == "" then ["name"] else [])
    + (if p.polygonType !in PolygonTypes then ["polygonType"] else [])
    + (if p.geometry.kind != "Polygon" then ["geometry.type"] else [])
    + (if !CoordinatesValid(p.geometry.coordinates) then ["geometry.coordinates"] else [])
    + (if !IsHexColor(p.style.fillColor) then ["style.fillColor"] else [])
    + (if !Admits(OpacityRange, p.style.fillOpacity) then ["style.fillOpacity"] else [])
    + (if !IsHexColor(p.style.strokeColor) then ["style.strokeColor"] else [])
    + (if !Admits(StrokeWidthRange, p.style.strokeWidth) then ["style.strokeWidth"] else [])
    + (if !Admits(OpacityRange, p.style.strokeOpacity) then ["style.strokeOpacity"] else [])
    + (if !Admits(HeightRange, p.extrusion.height) then ["extrusion.height"] else [])
    + (if !Admits(BaseRange, p.extrusion.base) then ["extrusion.base"] else [])
    + (if !IsHexColor(p.extrusion.color) then ["extrusion.color"] else [])
    + (if !Admits(OpacityRange, p.extrusion.opacity) then ["extrusion.opacity"] else [])
    + (if !Admits(ZoomRange, p.minZoom) then ["minZoom"] else [])
    + (if !Admits(ZoomRange, p.maxZoom) then ["maxZoom"] else [])
  }

  /** Breaking one rule of an otherwise valid document is reported at that
      path alone: an opacity, a height or a zoom out of range, or a colour
      that is not hex, never makes another path fail. */
  lemma OneBrokenRuleOneViolation(p: Polygon, x: real, color: string)
    requires Violations(p) == []
    ensures !Admits(OpacityRange, x) ==>
              Violations(p.(style := p.style.(fillOpacity := x))) == ["style.fillOpacity"]
    ensures !Admits(HeightRange, x) ==>
              Violations(p.(extrusion := p.extrusion.(height := x))) == ["extrusion.height"]
    ensures !Admits(ZoomRange, x) ==>
              Violations(p.(maxZoom := x)) == ["maxZoom"]
    ensures !IsHexColor(color) ==>
              Violations(p.(style := p.style.(strokeColor := color))) == ["style.strokeColor"]
  {
  }

  /** The defaults meet their own rules: a new document with a name that is
      not all white space and a closed outer ring saves. */
  lemma NewPolygonSaves(id: string, name: string, coordinates: Rings)
    requires exists i :: 0 <= i < |name| && !IsJsWhitespace(name[i])
    requires CoordinatesValid(coordinates)
    ensures Violations(NewPolygon(id, name, coordinates)) == []
  {
    TrimEmptyIff(name);
    HexColorExamples();
  }

  /** A name of white space only trims to nothing and fails `required`. */
  lemma BlankNameRejected(id: string, name: string, coordinates: Rings)
    requires forall i :: 0 <= i < |name| ==> IsJsWhitespace(name[i])
    ensures Violations(NewPolygon(id, name, coordinates))[0] == "name"
  {
    TrimEmptyIff(name);
  }

  // ---------------------------------------------------------------------------
  // coordinateCount
  // ---------------------------------------------------------------------------

  /** The number of positions over all rings. */
  function TotalPositions(rings: Rings): nat {
    if rings == [] then 0 else TotalPositions(rings[..|rings| - 1]) + |rings[|rings| - 1]|
  }

  /** The `coordinateCount` virtual: one pass adding each ring's length. */
  method CoordinateCount(p: Polygon) returns (count: nat)
    ensures count == TotalPositions(p.geometry.coordinates)
  {
    var rings := p.geometry.coordinates;
    count := 0;
    var i := 0;
    while i < |rings|
      invariant 0 <= i <= |rings|
      invariant count == TotalPositions(rings[..i])
    {
      assert rings[..i + 1][..i] == rings[..i];
      count := count + |rings[i]|;
      i := i + 1;
    }
    assert rings[..i] == rings;
  }

  /** The count of a list of rings is the sum over any split of it. */
  lemma {:induction false} TotalPositionsAppend(a: Rings, b: Rings)
    ensures TotalPositions(a + b) == TotalPositions(a) + TotalPositions(b)
    decreases |b|
  {
    if b == [] {
      assert a + b == a;
    } else {
      assert (a + b)[..|a + b| - 1] == a + b[..|b| - 1];
      assert (a + b)[|a + b| - 1] == b[|b| - 1];
      TotalPositionsAppend(a, b[..|b| - 1]);
    }
  }

  /** Each ring contributes its length: the outer ring's and then every hole's. */
  lemma TotalPositionsOuterAndHoles(rings: Rings)
    requires |rings| > 0
    ensures TotalPositions(rings) == |rings[0]| + TotalPositions(rings[1..])
  {
    TotalPositionsAppend([rings[0]], rings[1..]);
    assert [rings[0]] + rings[1..] == rings;
    assert [rings[0]][..0] == [];
  }

  /** A document that saves has at least the four positions of its outer ring. */
  lemma SavedCountsFour(p: Polygon)
    requires Violations(p) == []
    ensures TotalPositions(p.geometry.coordinates) >= 4
  {
    TotalPositionsOuterAndHoles(p.geometry.coordinates);
  }

  // ---------------------------------------------------------------------------
  // toGeoJSON
  // ---------------------------------------------------------------------------

  function OptionalString(s: Option<string>): Value {
    if s.Some? then Str(s.value) else Undefined
  }

  /** The Feature's standard properties, before the free-form ones are spread over them. */
  function StandardProperties(p: Polygon): map<string, Value> {
    map[
      "id" := Str(p.id),
      "name" := Str(p.name),
      "description" := OptionalString(p.description),
      "polygonType" := Str(p.polygonType),
      "height" := Num(p.extrusion.height),
      "color" := Str(p.extrusion.color),
      "fillColor" := Str(p.style.fillColor),
      "fillOpacity" := Num(p.style.fillOpacity),
      "strokeColor" := Str(p.style.strokeColor),
      "strokeWidth" := Num(p.style.strokeWidth),
      "strokeOpacity" := Num(p.style.strokeOpacity),
      "opacity" := Num(p.extrusion.opacity),
      "base" := Num(p.extrusion.base),
      "isVisible" := Bool(p.isVisible),
      "isInteractive" := Bool(p.isInteractive),
      "minZoom" := Num(p.minZoom),
      "maxZoom" := Num(p.maxZoom),
      "marker" := OptionalString(p.marker)
    ]
  }

  /** `toGeoJSON()` */
  function ToGeoJSON(p: Polygon): Value {
    Obj(map[
      "type" := Str("Feature"),
      "geometry" := Obj(map["type" := Str(p.geometry.kind), "coordinates" := RingsValue(p.geometry.coordinates)]),
      "properties" := Obj(StandardProperties(p) + p.properties)
    ])
  }

  /** The Feature carries the document's geometry unchanged: reading its
      coordinates back gives the stored rings, and the controller's
      conversion accepts it as it is. */
  lemma ToGeoJSONGeometry(p: Polygon)
    ensures ToGeoJSON(p).fields["type"] == Str("Feature")
    ensures var g := ToGeoJSON(p).fields["geometry"];
            && g.fields["type"] == Str(p.geometry.kind)
            && RingsCast(g.fields["coordinates"]) == Some(p.geometry.coordinates)
            && GeometryConversion.Normalize(g) == Success(g.fields["coordinates"])
  {
    RingsCastRoundTrip(p.geometry.coordinates);
  }

  /** The free-form properties are spread last: a same-named key overrides the
      standard field, the standard fields fill in the rest, and there is
      nothing else. */
  lemma ToGeoJSONProperties(p: Polygon, key: string)
    ensures var props := ToGeoJSON(p).fields["properties"].fields;
            && (key in p.properties ==> key in props && props[key] == p.properties[key])
            && (key !in p.properties && key in StandardProperties(p) ==> key in props && props[key] == StandardProperties(p)[key])
            && (key in props <==> key in p.properties || key in StandardProperties(p))
  {
  }

  /** A `name` in the free-form properties hides the document's own name. */
  lemma PropertiesOverrideName(p: Polygon, other: Value)
    requires p.properties == map["name" := other]
    ensures ToGeoJSON(p).fields["properties"].fields["name"] == other
  {
  }
}
