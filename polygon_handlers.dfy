/** The parts of the polygon controller's request handlers that do not touch
    the database: the guards and the query geometry of the bounding-box and
    intersection searches, the pagination arithmetic, the all-or-nothing bulk
    create, and the geometry check of the single create and of the update.
    The database is abstracted as a store of documents; a marker lookup is
    membership in a set of known marker ids. */
module PolygonHandlers {
  import opened Wrappers
  import opened Text
  import opened Json
  import opened GeometryConversion
  import CoordinatesValidation
  import Planar

  /** What sendResponse writes: the status, the success flag and the message. */
  datatype Response = Response(status: nat, success: bool, message: string)

  function Fail(status: nat, message: string): Response {
    Response(status, false, message)
  }

  /** A property of the request body, `undefined` when absent. */
  function Field(body: map<string, Value>, key: string): Value {
    if key in body then body[key] else Undefined
  }

  // ---------------------------------------------------------------------------
  // getPolygonsWithinBounds and getPolygonsIntersecting
  // ---------------------------------------------------------------------------

  const InvalidBoundsError: string := "Please provide valid bounds (north, south, east, west)"
  const InvalidGeometryError: string := "Please provide a valid GeoJSON geometry"

  /** The guard: the bounds and each of the four sides are truthy. */
  predicate HasBounds(bounds: Value) {
    && Truthy(bounds)
    && Truthy(Get(bounds, "north")) && Truthy(Get(bounds, "south"))
    && Truthy(Get(bounds, "east")) && Truthy(Get(bounds, "west"))
  }

  /** The rectangle walked north-west, north-east, south-east, south-west and back. */
  function BoundsRing(bounds: Value): Value
    requires !IsNullish(bounds)
  {
    var north, south := Get(bounds, "north"), Get(bounds, "south");
    var east, west := Get(bounds, "east"), Get(bounds, "west");
    Arr([Arr([west, north]), Arr([east, north]), Arr([east, south]), Arr([west, south]), Arr([west, north])])
  }

  /** The `$geometry` of the `$geoWithin` query, or the 400 response. */
  function WithinBoundsQuery(bounds: Value): Result<Value, Response> {
    if !HasBounds(bounds) then Failure(Fail(400, InvalidBoundsError))
    else Success(StoredGeometry(Arr([BoundsRing(bounds)])))
  }

  /** The `$geometry` of the `$geoIntersects` query, or the 400 response: any
      truthy value is passed on as it is, with no conversion and no check. */
  function IntersectsQuery(geometry: Value): Result<Value, Response> {
    if !Truthy(geometry) then Failure(Fail(400, InvalidGeometryError)) else Success(geometry)
  }

  /** Unlike the create and update handlers, the intersects handler neither
      converts nor validates: a legacy `{ outerRing, holes }` payload, which
      they would store converted, and a bare number, which they refuse, both
      reach `$geoIntersects` as sent. */
  lemma IntersectsSkipsPreparation(rings: seq<seq<Position>>, prefix: string)
    requires |rings| >= 1
    ensures var g := LegacyGeometry(rings);
            && IntersectsQuery(g) == Success(g)
            && (PrepareGeometry(g, prefix).Success? ==>
                  && PrepareGeometry(g, prefix).value == StoredGeometry(GeoJsonCoordinates(rings))
                  && PrepareGeometry(g, prefix).value != g)
    ensures IntersectsQuery(Num(1.0)) == Success(Num(1.0)) && PrepareGeometry(Num(1.0), prefix).Failure?
  {
    var g := LegacyGeometry(rings);
    LegacyRoundTrip(rings);
    PrepareGeometryIff(g, prefix, prefix);
    assert "outerRing" in g.fields;
    assert "outerRing" !in StoredGeometry(GeoJsonCoordinates(rings)).fields;
  }

  /** A side equal to 0 is falsy: a box touching the equator or the prime
      meridian is refused before any query. */
  lemma ZeroBoundRejected(bounds: Value, side: string)
    requires bounds.Obj? && side in bounds.fields && bounds.fields[side] == Num(0.0)
    requires side == "north" || side == "south" || side == "east" || side == "west"
    ensures WithinBoundsQuery(bounds) == Failure(Fail(400, InvalidBoundsError))
  {
  }

  /** Bounds given as four numbers in range: the query ring has five points, is
      closed, and is a ring list the controller's own validator accepts. */
  lemma BoundsRingValid(bounds: Value, north: real, south: real, east: real, west: real)
    requires bounds.Obj?
    requires Get(bounds, "north") == Num(north) && Get(bounds, "south") == Num(south)
    requires Get(bounds, "east") == Num(east) && Get(bounds, "west") == Num(west)
    requires north != 0.0 && south != 0.0 && east != 0.0 && west != 0.0
    requires -90.0 <= north <= 90.0 && -90.0 <= south <= 90.0
    requires -180.0 <= east <= 180.0 && -180.0 <= west <= 180.0
    ensures WithinBoundsQuery(bounds).Success?
    ensures var ring := BoundsRing(bounds);
            |ring.items| == 5 && ring.items[0] == ring.items[4]
            && ring.items[0] == Arr([Num(west), Num(north)])
            && ring.items[2] == Arr([Num(east), Num(south)])
    ensures CoordinatesValidation.ValidateCoordinates(Arr([BoundsRing(bounds)])) == Valid
  {
    var ring := BoundsRing(bounds);
    var coordinates := Arr([ring]);
    assert forall i :: 0 <= i < |ring.items| ==> CoordinatesValidation.IsValidPosition(ring.items[i]);
    assert CoordinatesValidation.IsValidOuterRing(coordinates);
    CoordinatesValidation.ValidateCoordinatesIff(coordinates);
  }

  /** The corners of the query rectangle, in the order the ring visits them. */
  function BoundsCorners(north: real, south: real, east: real, west: real): seq<Planar.Coord> {
    [Planar.Coord(west, north), Planar.Coord(east, north), Planar.Coord(east, south),
     Planar.Coord(west, south), Planar.Coord(west, north)]
  }

  /** The shoelace area of the query ring is the area of the box, |east - west| * |north - south|. */
  lemma BoundsRingArea(north: real, south: real, east: real, west: real)
    ensures Planar.Abs(Planar.ShoelaceSum(BoundsCorners(north, south, east, west))) / 2.0
            == Planar.Abs(east - west) * Planar.Abs(north - south)
  {
    var c := BoundsCorners(north, south, east, west);
    var width, height := east - west, north - south;
    assert Planar.ShoelacePartial(c, 4, 1) == west * north - east * north;
    assert Planar.ShoelacePartial(c, 4, 2) == west * north - east * north + east * south - east * north;
    assert Planar.ShoelacePartial(c, 4, 3) == west * north - 2.0 * east * north + 2.0 * east * south - west * south;
    assert Planar.ShoelacePartial(c, 4, 4) == 2.0 * (west * north - east * north + east * south - west * south);
    assert west * north - east * north + east * south - west * south == -(width * height);
    AbsProduct(width, height);
  }

  lemma AbsProduct(x: real, y: real)
    ensures Planar.Abs(-(x * y)) == Planar.Abs(x) * Planar.Abs(y)
  {
    if x < 0.0 && y < 0.0 {
      assert (-x) * (-y) == x * y;
    } else if x < 0.0 {
      assert (-x) * y == -(x * y);
    } else if y < 0.0 {
      assert x * (-y) == -(x * y);
    }
  }

  // ---------------------------------------------------------------------------
  // Pagination of getAllPolygons (and of getAllMarkers)
  // ---------------------------------------------------------------------------

  /** `(page - 1) * limit`: the number of records before the page. */
  function Skip(page: int, limit: int): (skip: int)
    ensures page >= 1 && limit >= 0 ==> skip >= 0
  {
    (page - 1) * limit
  }

  /** `Math.ceil(totalRecords / limit)`; None where the quotient is not a finite
      number (a limit of 0). */
  function TotalPages(totalRecords: nat, limit: int): Option<int> {
    if limit > 0 then Some((totalRecords + limit - 1) / limit)
    else if limit < 0 then Some(-(totalRecords / -limit))
    else None
  }

  /** TotalPages is the ceiling of the quotient: the least p with p * limit
      reaching totalRecords (for a negative limit, the inequalities turn over). */
  lemma TotalPagesIsCeiling(totalRecords: nat, limit: int)
    requires limit != 0
    ensures TotalPages(totalRecords, limit).Some?
    ensures var p := TotalPages(totalRecords, limit).value;
            limit > 0 ==> (p - 1) * limit < totalRecords <= p * limit
    ensures var p := TotalPages(totalRecords, limit).value;
            limit < 0 ==> p * limit <= totalRecords < (p - 1) * limit
  {
    var p := TotalPages(totalRecords, limit).value;
    if limit > 0 {
      var q, r := (totalRecords + limit - 1) / limit, (totalRecords + limit - 1) % limit;
      assert totalRecords + limit - 1 == q * limit + r;
      assert p * limit == (q - 1) * limit + limit;
    } else {
      var m := -limit;
      var q, r := totalRecords / m, totalRecords % m;
      assert totalRecords == q * m + r;
      assert p * limit == q * m;
      assert (p - 1) * limit == q * m + m;
    }
  }

  /** With a positive limit every record lies on exactly one of the pages
      1..TotalPages: the page r / limit + 1 skips at most r records and shows r. */
  lemma PagesCoverRecords(totalRecords: nat, limit: int, r: nat)
    requires limit > 0 && r < totalRecords
    ensures var page := r / limit + 1;
            && 1 <= page <= TotalPages(totalRecords, limit).value
            && Skip(page, limit) <= r < Skip(page, limit) + limit
  {
    var page := r / limit + 1;
    var q, m := r / limit, r % limit;
    assert r == q * limit + m;
    assert Skip(page, limit) == q * limit;
    TotalPagesIsCeiling(totalRecords, limit);
  }

  // ---------------------------------------------------------------------------
  // Geometry preparation shared by the create, update and bulk create handlers
  // ---------------------------------------------------------------------------

  /** Convert, then validate with the controller's validator: the stored
      geometry `{ type: "Polygon", coordinates }`, or the 400 response. A
      conversion error sends its message; a rejected geometry sends the
      validator's error after `invalidPrefix`. */
  function PrepareGeometry(geometry: Value, invalidPrefix: string): Result<Value, Response> {
    match Normalize(geometry)
    case Failure(e) => Failure(Fail(400, e.Message()))
    case Success(coordinates) =>
      match CoordinatesValidation.ValidateCoordinates(coordinates)
      case Invalid(err) => Failure(Fail(400, invalidPrefix + err))
      case Valid => Success(StoredGeometry(coordinates))
  }

  /** The prepared geometry is exactly the stored form of a converted ring
      list the validator accepts, and the prefix only changes the message. */
  lemma PrepareGeometryIff(geometry: Value, invalidPrefix: string, otherPrefix: string)
    ensures PrepareGeometry(geometry, invalidPrefix).Success?
            <==> Normalize(geometry).Success? && CoordinatesValidation.IsValidOuterRing(Normalize(geometry).value)
    ensures PrepareGeometry(geometry, invalidPrefix).Success?
            ==> PrepareGeometry(geometry, invalidPrefix).value == StoredGeometry(Normalize(geometry).value)
    ensures PrepareGeometry(geometry, invalidPrefix).Success? == PrepareGeometry(geometry, otherPrefix).Success?
    ensures PrepareGeometry(geometry, invalidPrefix).Success?
            ==> PrepareGeometry(geometry, invalidPrefix) == PrepareGeometry(geometry, otherPrefix)
  {
    if Normalize(geometry).Success? {
      CoordinatesValidation.ValidateCoordinatesIff(Normalize(geometry).value);
    }
  }

  /** A prepared geometry prepares to itself: resubmitting a stored polygon's
      geometry changes nothing. */
  lemma PrepareGeometryIdempotent(geometry: Value, invalidPrefix: string)
    requires PrepareGeometry(geometry, invalidPrefix).Success?
    ensures PrepareGeometry(PrepareGeometry(geometry, invalidPrefix).value, invalidPrefix)
            == PrepareGeometry(geometry, invalidPrefix)
  {
    NormalizeStoredGeometry(geometry);
  }

  // ---------------------------------------------------------------------------
  // The store
  // ---------------------------------------------------------------------------

  /** The polygon collection, as the documents written to it, in order. */
  class PolygonStore {
    var documents: seq<Value>

    constructor()
      ensures documents == []
    {
      documents := [];
    }

    /** `Polygon.create(data)` */
    method Create(document: Value)
      modifies this
      ensures documents == old(documents) + [document]
    {
      documents := documents + [document];
    }

    /** `Polygon.insertMany(docs)`: all of them, in order. */
    method InsertMany(docs: seq<Value>) returns (created: seq<Value>)
      modifies this
      ensures documents == old(documents) + docs
      ensures created == docs
    {
      documents := documents + docs;
      created := docs;
    }
  }

  // ---------------------------------------------------------------------------
  // createMultiplePolygons
  // ---------------------------------------------------------------------------

  const NoPolygonsError: string := "Please provide an array of polygons to create"
  const InvalidPolygonPrefix: string := "Invalid polygon geometry: "

  function CreatedMessage(n: nat): string {
    NatToString(n) + " polygons created successfully"
  }

  /** The own properties `{ ...v }` copies; only objects reach the spread. */
  function OwnFields(v: Value): map<string, Value> {
    if v.Obj? then v.fields else map[]
  }

  /** One iteration of the loop: the document pushed for polygonData, or the
      response sent. Reading `geometry` of null or undefined throws. */
  function ProcessPolygon(polygonData: Value): Result<Value, Response> {
    if IsNullish(polygonData) then Failure(Fail(400, CannotRead(polygonData, "geometry")))
    else
      match PrepareGeometry(Get(polygonData, "geometry"), InvalidPolygonPrefix)
      case Failure(response) => Failure(response)
      case Success(geometry) => Success(Obj(OwnFields(polygonData)["geometry" := geometry]))
  }

  /** The outcome of each item, in order. */
  function ItemResults(items: seq<Value>): seq<Result<Value, Response>> {
    seq(|items|, j requires 0 <= j < |items| => ProcessPolygon(items[j]))
  }

  /** The loop over per-item outcomes: the documents of the first k, or the
      first failure among them. */
  function Collect(results: seq<Result<Value, Response>>, k: nat): Result<seq<Value>, Response>
    requires k <= |results|
  {
    if k == 0 then Success([])
    else
      match Collect(results, k - 1)
      case Failure(response) => Failure(response)
      case Success(docs) =>
        match results[k - 1]
        case Failure(response) => Failure(response)
        case Success(doc) => Success(docs + [doc])
  }

  /** The documents pushed for the first k items, or the response of the first item that fails. */
  function ProcessAll(items: seq<Value>, k: nat): Result<seq<Value>, Response>
    requires k <= |items|
  {
    Collect(ItemResults(items), k)
  }

  /** What the handler inserts, or the response it sends without inserting. */
  function BulkCreate(polygons: Value): Result<seq<Value>, Response> {
    if !polygons.Arr? || |polygons.items| == 0 then Failure(Fail(400, NoPolygonsError))
    else ProcessAll(polygons.items, |polygons.items|)
  }

  /** createMultiplePolygons: every item is processed before anything is
      written, so a failing item leaves the store as it was; otherwise every
      processed document is inserted with one insertMany. */
  method CreateMultiplePolygons(store: PolygonStore, polygons: Value) returns (response: Response)
    modifies store
    ensures BulkCreate(polygons).Failure? ==> response == BulkCreate(polygons).error
    ensures BulkCreate(polygons).Failure? ==> store.documents == old(store.documents)
    ensures BulkCreate(polygons).Success? ==>
              && store.documents == old(store.documents) + BulkCreate(polygons).value
              && response == Response(201, true, CreatedMessage(|BulkCreate(polygons).value|))
  {
    if !polygons.Arr? || |polygons.items| == 0 {
      return Fail(400, NoPolygonsError);
    }
    var outcome := ProcessItems(polygons.items);
    if outcome.Failure? {
      return outcome.error;
    }
    var created := store.InsertMany(outcome.value);
    response := Response(201, true, CreatedMessage(|created|));
  }

  /** The handler's loop: each item processed in order, stopping at the first
      that fails; nothing is written. */
  method ProcessItems(items: seq<Value>) returns (outcome: Result<seq<Value>, Response>)
    ensures outcome == ProcessAll(items, |items|)
  {
    ghost var results := ItemResults(items);
    var processed: seq<Value> := [];
    var i := 0;
    while i < |items|
      invariant 0 <= i <= |items|
      invariant Collect(results, i) == Success(processed)
    {
      var item := ProcessPolygon(items[i]);
      assert results[i] == item;
      CollectStep(results, i, processed);
      if item.Failure? {
        CollectStopsAtFailure(results, i + 1, |items|);
        return Failure(item.error);
      }
      processed := processed + [item.value];
      i := i + 1;
    }
    return Success(processed);
  }

  /** One more item: its failure, or its document appended. */
  lemma CollectStep(results: seq<Result<Value, Response>>, i: nat, docs: seq<Value>)
    requires i < |results| && Collect(results, i) == Success(docs)
    ensures results[i].Failure? ==> Collect(results, i + 1) == Failure(results[i].error)
    ensures results[i].Success? ==> Collect(results, i + 1) == Success(docs + [results[i].value])
  {
  }

  /** Once an item has failed, processing more items keeps that failure. */
  lemma {:induction false} CollectStopsAtFailure(results: seq<Result<Value, Response>>, k: nat, m: nat)
    requires k <= m <= |results|
    requires Collect(results, k).Failure?
    ensures Collect(results, m) == Collect(results, k)
    decreases m - k
  {
    if k < m {
      CollectStopsAtFailure(results, k, m - 1);
    }
  }

  /** A successful run keeps one document per item, in order. */
  lemma {:induction false} CollectElementwise(results: seq<Result<Value, Response>>, k: nat)
    requires k <= |results|
    requires Collect(results, k).Success?
    ensures |Collect(results, k).value| == k
    ensures forall j :: 0 <= j < k ==> results[j].Success?
    ensures forall j :: 0 <= j < k ==> Collect(results, k).value[j] == results[j].value
  {
    if k > 0 {
      CollectElementwise(results, k - 1);
      var prefix := Collect(results, k - 1).value;
      assert Collect(results, k).value == prefix + [results[k - 1].value];
    }
  }

  /** Conversely, when every item succeeds the run does. */
  lemma {:induction false} CollectSucceeds(results: seq<Result<Value, Response>>, k: nat)
    requires k <= |results|
    requires forall j :: 0 <= j < k ==> results[j].Success?
    ensures Collect(results, k).Success?
  {
    if k > 0 {
      CollectSucceeds(results, k - 1);
    }
  }

  /** The items before the first failing one are processed, and that item's response is sent. */
  lemma CollectFirstFailure(results: seq<Result<Value, Response>>, k: nat)
    requires k < |results|
    requires forall j :: 0 <= j < k ==> results[j].Success?
    requires results[k].Failure?
    ensures Collect(results, |results|) == Failure(results[k].error)
  {
    CollectSucceeds(results, k);
    CollectStep(results, k, Collect(results, k).value);
    CollectStopsAtFailure(results, k + 1, |results|);
  }

  /** What a processed item is: an object whose geometry converts to a ring list
      the validator accepts, stored with that geometry and all its other fields. */
  lemma ProcessPolygonShape(polygonData: Value)
    requires ProcessPolygon(polygonData).Success?
    ensures polygonData.Obj?
    ensures var coordinates := Normalize(Get(polygonData, "geometry"));
            && coordinates.Success?
            && CoordinatesValidation.IsValidOuterRing(coordinates.value)
            && ProcessPolygon(polygonData).value
               == Obj(polygonData.fields["geometry" := StoredGeometry(coordinates.value)])
  {
    PrepareGeometryIff(Get(polygonData, "geometry"), InvalidPolygonPrefix, "");
  }

  /** Processing a document the handler has produced gives that document back. */
  lemma ProcessPolygonIdempotent(polygonData: Value)
    requires ProcessPolygon(polygonData).Success?
    ensures ProcessPolygon(ProcessPolygon(polygonData).value) == ProcessPolygon(polygonData)
  {
    var doc := ProcessPolygon(polygonData).value;
    ProcessPolygonShape(polygonData);
    var geometry := PrepareGeometry(Get(polygonData, "geometry"), InvalidPolygonPrefix).value;
    PrepareGeometryIdempotent(Get(polygonData, "geometry"), InvalidPolygonPrefix);
    assert Get(doc, "geometry") == geometry;
    assert OwnFields(doc)["geometry" := geometry] == OwnFields(doc);
  }

  /** All or nothing: the handler inserts iff the list is a non-empty array
      whose every item is processed, and then it inserts exactly those documents. */
  lemma BulkCreateIff(polygons: Value)
    ensures BulkCreate(polygons).Success?
            <==> polygons.Arr? && |polygons.items| > 0
                 && forall j :: 0 <= j < |polygons.items| ==> ProcessPolygon(polygons.items[j]).Success?
    ensures BulkCreate(polygons).Success? ==>
              && |BulkCreate(polygons).value| == |polygons.items|
              && forall j :: 0 <= j < |polygons.items| ==>
                   BulkCreate(polygons).value[j] == ProcessPolygon(polygons.items[j]).value
  {
    if polygons.Arr? && |polygons.items| > 0 {
      var results := ItemResults(polygons.items);
      assert forall j :: 0 <= j < |results| ==> results[j] == ProcessPolygon(polygons.items[j]);
      if Collect(results, |results|).Success? {
        CollectElementwise(results, |results|);
      }
      if forall j :: 0 <= j < |results| ==> results[j].Success? {
        CollectSucceeds(results, |results|);
      }
    }
  }

  /** A list with a null item is refused with the TypeError of reading its
      geometry, once the items before it have been processed. */
  lemma NullItemRefused(polygons: Value, k: nat)
    requires polygons.Arr? && k < |polygons.items| && polygons.items[k] == Null
    requires forall j :: 0 <= j < k ==> ProcessPolygon(polygons.items[j]).Success?
    ensures BulkCreate(polygons)
            == Failure(Fail(400, "Cannot read properties of null (reading 'geometry')"))
  {
    var results := ItemResults(polygons.items);
    NullItemResponse();
    CollectFirstFailure(results, k);
  }

  lemma NullItemResponse()
    ensures ProcessPolygon(Null) == Failure(Fail(400, "Cannot read properties of null (reading 'geometry')"))
  {
    NullGeometryMessage();
  }

  lemma NullGeometryMessage()
    ensures CannotRead(Null, "geometry") == "Cannot read properties of null (reading 'geometry')"
  {
    assert NullishName(Null) == "null";
  }

  // ---------------------------------------------------------------------------
  // createPolygon and updatePolygon
  // ---------------------------------------------------------------------------

  const MarkerNotFoundError: string := "Associated marker not found"
  const PolygonNotFoundError: string := "Polygon not found"
  const CreatedOneMessage: string := "Polygon created successfully"
  const UpdatedMessage: string := "Polygon updated successfully"

  /** The marker check: a truthy marker id must name a known marker. */
  function CheckMarker(data: map<string, Value>, markers: set<Value>): Result<map<string, Value>, Response> {
    if Truthy(Field(data, "marker")) && Field(data, "marker") !in markers then Failure(Fail(404, MarkerNotFoundError))
    else Success(data)
  }

  /** The document createPolygon writes, or the response it sends: the
      geometry is always converted and validated. */
  function CreateDocument(body: map<string, Value>, markers: set<Value>): Result<map<string, Value>, Response> {
    match PrepareGeometry(Field(body, "geometry"), "")
    case Failure(response) => Failure(response)
    case Success(geometry) => CheckMarker(body["geometry" := geometry], markers)
  }

  /** createPolygon */
  method CreatePolygon(store: PolygonStore, body: map<string, Value>, markers: set<Value>) returns (response: Response)
    modifies store
    ensures CreateDocument(body, markers).Failure? ==>
              response == CreateDocument(body, markers).error && store.documents == old(store.documents)
    ensures CreateDocument(body, markers).Success? ==>
              && response == Response(201, true, CreatedOneMessage)
              && store.documents == old(store.documents) + [Obj(CreateDocument(body, markers).value)]
  {
    var document := CreateDocument(body, markers);
    if document.Failure? {
      return document.error;
    }
    store.Create(Obj(document.value));
    response := Response(201, true, CreatedOneMessage);
  }

  /** The single and the bulk create accept the same payloads (without a
      marker) and build the same document; only the validator's message differs. */
  lemma CreateAgreesWithBulk(body: map<string, Value>, markers: set<Value>)
    requires !Truthy(Field(body, "marker"))
    ensures CreateDocument(body, markers).Success? <==> ProcessPolygon(Obj(body)).Success?
    ensures CreateDocument(body, markers).Success? ==>
              Obj(CreateDocument(body, markers).value) == ProcessPolygon(Obj(body)).value
  {
    assert Get(Obj(body), "geometry") == Field(body, "geometry");
    PrepareGeometryIff(Field(body, "geometry"), "", InvalidPolygonPrefix);
    if PrepareGeometry(Field(body, "geometry"), "").Success? {
      var geometry := PrepareGeometry(Field(body, "geometry"), "").value;
      assert Field(body["geometry" := geometry], "marker") == Field(body, "marker");
    }
  }

  /** The fields updatePolygon assigns, or the response it sends: the geometry
      is converted and validated only when the body carries a truthy one. */
  function UpdatedData(body: map<string, Value>, markers: set<Value>): Result<map<string, Value>, Response> {
    if Truthy(Field(body, "geometry")) then
      match PrepareGeometry(Field(body, "geometry"), "")
      case Failure(response) => Failure(response)
      case Success(geometry) => CheckMarker(body["geometry" := geometry], markers)
    else CheckMarker(body, markers)
  }

  /** A polygon document, whose fields `Object.assign` overwrites in place. */
  class PolygonDocument {
    var fields: map<string, Value>

    constructor(fields: map<string, Value>)
      ensures this.fields == fields
    {
      this.fields := fields;
    }
  }

  /** updatePolygon: a found polygon takes every field of the update, after
      the geometry (if any) has passed; otherwise it is left as it was. */
  method UpdatePolygon(polygon: PolygonDocument?, body: map<string, Value>, markers: set<Value>) returns (response: Response)
    modifies polygon
    ensures polygon == null ==> response == Fail(404, PolygonNotFoundError)
    ensures polygon != null && UpdatedData(body, markers).Failure? ==>
              response == UpdatedData(body, markers).error && polygon.fields == old(polygon.fields)
    ensures polygon != null && UpdatedData(body, markers).Success? ==>
              && response == Response(200, true, UpdatedMessage)
              && polygon.fields == old(polygon.fields) + UpdatedData(body, markers).value
  {
    if polygon == null {
      return Fail(404, PolygonNotFoundError);
    }
    var updatedData := UpdatedData(body, markers);
    if updatedData.Failure? {
      return updatedData.error;
    }
    polygon.fields := polygon.fields + updatedData.value;
    response := Response(200, true, UpdatedMessage);
  }

  /** An update without a geometry is never refused for its geometry: it
      passes iff its marker does, the stored geometry stays as it was, and
      every other field takes the body's value. */
  lemma UpdateWithoutGeometry(stored: map<string, Value>, body: map<string, Value>, markers: set<Value>)
    requires "geometry" !in body
    ensures UpdatedData(body, markers).Success? <==> CheckMarker(body, markers).Success?
    ensures UpdatedData(body, markers).Success? ==>
              && Field(stored + UpdatedData(body, markers).value, "geometry") == Field(stored, "geometry")
              && forall key :: key in body ==> (stored + UpdatedData(body, markers).value)[key] == body[key]
  {
  }

  /** An update with a truthy geometry stores the converted form, and only
      when the validator accepts it. */
  lemma UpdateWithGeometry(stored: map<string, Value>, body: map<string, Value>, markers: set<Value>)
    requires Truthy(Field(body, "geometry"))
    requires UpdatedData(body, markers).Success?
    ensures var coordinates := Normalize(Field(body, "geometry"));
            && coordinates.Success?
            && CoordinatesValidation.IsValidOuterRing(coordinates.value)
            && (stored + UpdatedData(body, markers).value)["geometry"] == StoredGeometry(coordinates.value)
  {
    PrepareGeometryIff(Field(body, "geometry"), "", "");
  }

  /** A falsy geometry in the body skips the check and is assigned as it is. */
  lemma FalsyGeometryAssigned(stored: map<string, Value>, body: map<string, Value>, markers: set<Value>)
    requires "geometry" in body && !Truthy(body["geometry"])
    requires !Truthy(Field(body, "marker"))
    ensures UpdatedData(body, markers).Success?
    ensures (stored + UpdatedData(body, markers).value)["geometry"] == body["geometry"]
  {
  }
}
