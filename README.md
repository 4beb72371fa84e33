# PartyMap polygon geometry, in Dafny

This project models the polygon geometry subsystem of the PartyMap backend, together with a few small string and record transforms from the rest of the backend.

**Polygon controller and service**
- The geometry normaliser turns a request payload into GeoJSON Polygon coordinates. The payload is either already in that layout or in the legacy `{outerRing, holes}` shape.
- There are two coordinate validators. The array-form one in the controller checks only the outer ring. The object-form one in the service checks every ring.
- The shoelace area, the Douglas-Peucker simplifier and the clamped point-to-segment distance come from the polygon service.
- The pure parts of the polygon handlers are modelled:
  - the bounds guard and the query rectangle;
  - the intersects guard;
  - the pagination arithmetic;
  - single create;
  - all-or-nothing bulk create;
  - update.

**Polygon model**
- The schema rules: the closed-ring validator, hex colours, numeric ranges, enumerations and defaults.
- The `coordinateCount` virtual.
- The `toGeoJSON` projection to a GeoJSON Feature (section 3.2 of RFC 7946).

**Other handlers and helpers**
- The marker ticket transform on create and on update, and the `":00"` stripping on read.
- `escapeRegex`, `sanitizeEmail` and `getContentType`.
- The upload file-type check and the storage-key sanitiser.

**How the model represents the source**
- JavaScript values arriving in a request body are modelled by the datatype `Json.Value`, so that tests such as `Array.isArray`, `typeof`, truthiness and property reads keep their meaning.
- A `TypeError` the source would raise becomes an error value whose message follows the V8 wording ("Cannot read properties of null (reading 'geometry')").
- Code that works step by step is modelled imperatively:
  - the area loop;
  - `simplifySegment`, which pushes into a shared array, modelled as the class `Simplification.Simplifier`;
  - the hole loop of the normaliser;
  - the bulk-create loop;
  - the `coordinateCount` fold;
  - the database, modelled as the class `PolygonHandlers.PolygonStore`, whose `documents` sequence is only ever appended to;
  - `Object.assign` on a loaded document, modelled as the class `PolygonHandlers.PolygonDocument`.
- Each such method is proved equal to a specification function. The lemmas state what the source promises about that function.

**Files**
- `wrappers.dfy` holds `Option` and `Result`.
- `text.dfy` holds JavaScript string operations: `trim`, ASCII `toLowerCase`, `lastIndexOf` and decimal numerals.
- `json.dfy` holds the value model.
- Every other file models one part of the source, as named in the table below.

## Model

| member | source | states |
|---|---|---|
| RingValidation.CheckCoordinateValid | services/polygon.service.js:51-76 | one coordinate passes iff it is an object with numeric longitude in [-180,180] and numeric latitude in [-90,90] |
| RingValidation.CheckCoordinatesFromValid | services/polygon.service.js:50-79 | the coordinate loop from index i passes iff every coordinate from i on is valid |
| RingValidation.CheckCoordinatesFromFirstFailure | services/polygon.service.js:50-76 | the loop returns the error of the first invalid coordinate, carrying its index |
| RingValidation.ValidateRingIff | services/polygon.service.js:25-80 | validateRing accepts iff the ring is an array of at least 4 coordinates, closed on longitude and latitude, and every coordinate is valid |
| RingValidation.ValidateRingErrors | services/polygon.service.js:26-47 | a non-array or a ring of fewer than 4 gives "<ring> must have at least 4 coordinates"; an open ring gives "<ring> must be closed …", before any coordinate is inspected |
| RingValidation.ValidateRingFirstBadCoordinate | services/polygon.service.js:49-76 | for a closed ring of at least 4, the result is the error of the first invalid coordinate |
| RingValidation.CheckHolesStep | services/polygon.service.js:15-20 | the hole loop passes from i iff hole i is valid and the loop passes from i+1 |
| RingValidation.CheckHolesFromValid | services/polygon.service.js:15-22 | the hole loop passes iff every hole is valid |
| RingValidation.ValidatePolygonGeometryIff | services/polygon.service.js:1-23 | the service validator accepts iff the geometry has an outer ring, the outer ring is valid, and `holes` is absent or every entry `holes[i]` for i below `holes.length` is a valid hole (an array-like object is walked up to its own "length") |
| RingValidation.CheckHolesFromFirstFailure | services/polygon.service.js:15-19 | the first failing hole's result is returned, named "Hole k+1" |
| RingValidation.ValidatePolygonGeometryRingOrder | services/polygon.service.js:9-19 | an invalid outer ring is reported before any hole; otherwise the first invalid entry of `holes` (array, string or array-like object) is reported |
| RingValidation.ArrayLikeHolesMissingIndex | services/polygon.service.js:15-16 | an object `holes` whose "length" is k+1 but which has no property "k" makes the loop throw "Cannot read properties of undefined (reading 'coordinates')" once the holes before it are valid |
| RingValidation.ArrayLikeHolesFirstInvalid | services/polygon.service.js:15-19 | the first invalid property "k" of an array-like object `holes` below its "length" is reported as "Hole k+1" |
| RingValidation.ArrayLikeEntries | services/polygon.service.js:15-16 | an object `holes` whose "length" is k+1 yields exactly k+1 entries, entry j being its property "j" (undefined when missing) |
| RingValidation.CheckHolesFromFirstThrow | services/polygon.service.js:15-16 | a null or undefined hole behind valid ones makes the loop throw the TypeError of reading its coordinates |
| RingValidation.MissingOuterRingRejected | services/polygon.service.js:2-4 | a missing geometry or a missing outerRing gives "Geometry must have an outerRing" |
| Planar.CalculatePolygonArea | services/polygon.service.js:82-94 | the loop computes half the absolute shoelace sum over the first n = len-1 points with wrap-around index (i+1)%n, so the area is >= 0 |
| Planar.ShoelacePartialReadsPrefix | services/polygon.service.js:85-91 | the partial shoelace sum reads only the first n points |
| Planar.CrossReadsPoints | services/polygon.service.js:89-90 | one cross term depends only on the two points it reads |
| Planar.AreaIgnoresClosingPoint | services/polygon.service.js:85 | replacing the closing point by any point leaves the area unchanged |
| Planar.RepeatedPointPartial | services/polygon.service.js:87-91 | every partial sum over a ring of one repeated point is 0 |
| Planar.RepeatedPointHasZeroArea | services/polygon.service.js:82-94 | a ring of one repeated point has area 0 |
| Planar.RectangleArea | services/polygon.service.js:82-94 | the ring (0,0),(0,2),(3,2),(3,0),(0,0) has area 6 |
| Planar.PerpendicularDistanceSq | services/polygon.service.js:132-161 | the squared distance is nonnegative |
| Planar.PerpendicularDistanceClamps | services/polygon.service.js:141-155 | a zero-length chord gives the distance to lineStart; a parameter < 0 clamps to lineStart; > 1 clamps to lineEnd; otherwise the projected point is used |
| Planar.DistSqAlongLine | services/polygon.service.js:133-139 | the squared distance to the point at parameter t on the chord is the quadratic in t built from A, B, C, D |
| Planar.ClampedParameter | services/polygon.service.js:141-160 | the result is the distance to the chord's point at a parameter in [0,1], namely the clamped projection |
| Planar.PerpendicularDistanceAttained | services/polygon.service.js:132-161 | some point of the segment is at exactly the computed distance |
| Planar.PerpendicularDistanceIsMinimal | services/polygon.service.js:132-161 | for a non-degenerate chord, no point of the segment is closer than the computed distance |
| Planar.ClampedProjectionIsClosest | services/polygon.service.js:143-155 | the clamped projection is the closest point of the segment |
| Planar.DegenerateChord | services/polygon.service.js:141 | with lineEnd = lineStart the result is the distance to lineStart |
| Planar.SegmentMinimum | services/polygon.service.js:143-155 | the clamped minimiser of the quadratic is no worse than any t in [0,1] |
| Planar.SegmentMinimumBelow | services/polygon.service.js:146-148 | a parameter below 0 makes t = 0 the minimiser |
| Planar.SegmentMinimumAbove | services/polygon.service.js:149-151 | a parameter above 1 makes t = 1 the minimiser |
| Planar.SegmentMinimumInside | services/polygon.service.js:152-154 | an interior parameter is the global minimiser of the quadratic |
| Simplification.Farthest | services/polygon.service.js:104-117 | the loop's result is the first interior index of greatest distance, strictly inside the segment, or (0, 0) when no distance exceeds 0 |
| Simplification.Kept | services/polygon.service.js:103-124 | the indices simplifySegment pushes lie strictly between start and end, are strictly increasing and number at most end-start-1 |
| Simplification.KeptUnfold | services/polygon.service.js:119-123 | a segment keeps its left half, the farthest point and its right half when the distance exceeds the tolerance, and nothing otherwise |
| Simplification.Select | services/polygon.service.js:121 | picking points by index keeps the order and the points of the indices |
| Simplification.KeptIndices | services/polygon.service.js:101-127 | the kept indices start at 0, end at len-1 and are strictly increasing, so the result is an in-order subsequence |
| Simplification.Simplifier.constructor | services/polygon.service.js:101 | simplified starts as [coordinates[0]] |
| Simplification.Simplifier.FindFarthest | services/polygon.service.js:104-117 | the distance loop returns exactly Farthest |
| Simplification.Simplifier.SimplifySegment | services/polygon.service.js:103-124 | simplifySegment appends exactly the points Kept names, in order |
| Simplification.SelectKeptSplits | services/polygon.service.js:119-123 | the pushed points split at the farthest point as the recursion does |
| Simplification.SelectConcat | services/polygon.service.js:120-122 | picking points distributes over concatenated index lists |
| Simplification.SimplifyPolygon | services/polygon.service.js:96-130 | the result is Simplified: input of length <= 3 is returned unchanged; otherwise the result keeps the first and last point and is no longer than the input |
| Simplification.SimplifiedUnfold | services/polygon.service.js:101-127 | the result is the first point, the points simplifySegment(0, len-1) keeps, then the last point |
| Simplification.WithinToleranceJoin | services/polygon.service.js:119-123 | two tolerance-respecting index lists that share an end join into one |
| Simplification.KeptWithinTolerance | services/polygon.service.js:103-124 | every dropped point lies within the tolerance of the chord between its kept neighbours |
| Simplification.SimplifiedKeepsEnds | services/polygon.service.js:96-130 | the simplified ring starts with coordinates[0], ends with coordinates[len-1], has length between 2 and len, and is an in-order subsequence |
| Simplification.SimplifiedWithinTolerance | services/polygon.service.js:96-130 | every point the simplification drops is within the tolerance of the kept chord spanning it |
| Simplification.SimplifyPolygonDefault | services/polygon.service.js:96 | the default tolerance is 0.0001 |
| GeometryConversion.ConvertRing | controllers/polygon.controller.js:19-28 | a converted ring has as many positions as the input ring |
| GeometryConversion.ConvertToGeoJSONCoordinates | controllers/polygon.controller.js:7-57 | the method, with its loop over the holes, returns exactly Normalize |
| GeometryConversion.ConvertHolesStopsAtFailure | controllers/polygon.controller.js:33-47 | once a hole throws, the rest of the holes leave the error unchanged |
| GeometryConversion.ConvertHolesCount | controllers/polygon.controller.js:32-47 | the holes pushed are exactly those with truthy coordinates, and no hole before them is null or undefined |
| GeometryConversion.ConvertHolesStopsAtFailureBack | controllers/polygon.controller.js:33-47 | a successful hole loop succeeded on every hole before |
| GeometryConversion.LegacyOutputLength | controllers/polygon.controller.js:15-50 | the legacy output has 1 + (number of holes with coordinates) rings |
| GeometryConversion.NormalizeGivesArray | controllers/polygon.controller.js:7-57 | a successful conversion returns an array |
| GeometryConversion.NormalizeStoredGeometry | controllers/polygon.controller.js:10-11 | converting the stored `{type, coordinates}` form again gives the same coordinates |
| GeometryConversion.NormalizeKeepsArrayForm | controllers/polygon.controller.js:10-11 | an array `coordinates` is returned unchanged |
| GeometryConversion.ConvertRingElementwise | controllers/polygon.controller.js:19-28 | ring conversion is elementwise |
| GeometryConversion.ConvertLegacyPosition | controllers/polygon.controller.js:20-25 | `{longitude, latitude}` becomes `[longitude, latitude]` |
| GeometryConversion.ConvertLegacyRing | controllers/polygon.controller.js:19-28 | a legacy ring converts to the GeoJSON ring of the same positions |
| GeometryConversion.ConvertRingPassesArrays | controllers/polygon.controller.js:27 | entries that are already arrays pass through unchanged |
| GeometryConversion.ConvertHolesElementwise | controllers/polygon.controller.js:33-47 | holes are converted in input order |
| GeometryConversion.ConvertLegacyHole | controllers/polygon.controller.js:34-45 | a legacy hole converts to its GeoJSON ring |
| GeometryConversion.LegacyGeometryParts | controllers/polygon.controller.js:15-33 | the legacy encoding has no array coordinates, an outer ring and one hole per further ring |
| GeometryConversion.NormalizeLegacyShape | controllers/polygon.controller.js:15-50 | the output is the outer ring followed by the converted holes |
| GeometryConversion.LegacyRoundTrip | controllers/polygon.controller.js:7-57 | the legacy encoding of any rings converts to their GeoJSON coordinates, and the stored form converts back to the same |
| CoordinatesValidation.CheckPositionValid | controllers/polygon.controller.js:95-121 | a position passes iff it is a 2-element array of numbers with longitude in [-180,180] and latitude in [-90,90] |
| CoordinatesValidation.CheckPositionsFromValid | controllers/polygon.controller.js:94-122 | the position loop from i passes iff every position from i on is valid |
| CoordinatesValidation.EndsMatchValidPositions | controllers/polygon.controller.js:75-85 | for valid end positions, the closure check holds iff the two positions are equal |
| CoordinatesValidation.ValidateCoordinatesIff | controllers/polygon.controller.js:60-125 | the controller validator accepts iff the outer ring has at least 4 valid positions and is closed |
| CoordinatesValidation.CheckPositionsFromFirstFailure | controllers/polygon.controller.js:94-121 | the loop reports the first invalid position with its index |
| CoordinatesValidation.ValidateCoordinatesFirstBadPosition | controllers/polygon.controller.js:94-121 | for a closed outer ring of at least 4, the result is the first bad position's error |
| CoordinatesValidation.ValidateCoordinatesOrder | controllers/polygon.controller.js:61-91 | the checks run in order: non-empty array, outer ring of at least 4, closed |
| CoordinatesValidation.ValidateCoordinatesOuterOnly | controllers/polygon.controller.js:66 | two inputs with the same outer ring get the same verdict: holes are never inspected |
| PolygonHandlers.IntersectsSkipsPreparation | controllers/polygon.controller.js:595-612 | the intersects handler passes any truthy geometry to the query as sent: a legacy payload, which create stores converted to `{type, coordinates}`, and a bare number, which create refuses, both reach `$geoIntersects` unchanged |
| PolygonHandlers.ZeroBoundRejected | controllers/polygon.controller.js:554-566 | a bound equal to 0 is rejected with 400 |
| PolygonHandlers.BoundsRingValid | controllers/polygon.controller.js:554-581 | for nonzero in-range bounds the guard passes; the ring has 5 points, is closed, runs from (w,n) through (e,s), and the controller validator accepts it |
| PolygonHandlers.BoundsRingArea | controllers/polygon.controller.js:573-581 | the rectangle's shoelace area is \|e-w\|·\|n-s\| |
| PolygonHandlers.Skip | controllers/marker.controller.js:72-74 | (page-1)·limit is nonnegative for page >= 1 and limit >= 0 |
| PolygonHandlers.TotalPagesIsCeiling | controllers/polygon.controller.js:215 | for limit > 0, totalPages is the ceiling of totalRecords/limit; for limit < 0 the ceiling of a negative quotient |
| PolygonHandlers.PagesCoverRecords | controllers/polygon.controller.js:184-215 | every record index r lies on a page between 1 and totalPages whose skip window contains r |
| PolygonHandlers.PrepareGeometryIff | controllers/polygon.controller.js:133-149 | geometry preparation succeeds iff conversion succeeds and the outer ring validates, and then stores `{type: "Polygon", coordinates}`; the error prefix does not change the outcome |
| PolygonHandlers.PrepareGeometryIdempotent | controllers/polygon.controller.js:133-149 | preparing the stored geometry again gives the same result |
| PolygonHandlers.PolygonStore.constructor | controllers/polygon.controller.js:402 | the store starts empty |
| PolygonHandlers.PolygonStore.Create | controllers/polygon.controller.js:163 | Polygon.create appends one document |
| PolygonHandlers.PolygonStore.InsertMany | controllers/polygon.controller.js:402 | insertMany appends all documents in order and returns them |
| PolygonHandlers.CreateMultiplePolygons | controllers/polygon.controller.js:366-417 | on any failure the store is unchanged and the error is returned; on success the store gains exactly the processed items and the response is 201 "<n> polygons created successfully" |
| PolygonHandlers.ProcessItems | controllers/polygon.controller.js:379-400 | the loop returns the first item's error, or all processed items in order |
| PolygonHandlers.CollectStep | controllers/polygon.controller.js:381-399 | one more item either fails the loop with its error or appends its document |
| PolygonHandlers.CollectStopsAtFailure | controllers/polygon.controller.js:385-391 | after the first failure the outcome no longer changes |
| PolygonHandlers.CollectElementwise | controllers/polygon.controller.js:381-399 | a successful loop processed every item and kept them in input order |
| PolygonHandlers.CollectSucceeds | controllers/polygon.controller.js:381-399 | if every item succeeds the loop succeeds |
| PolygonHandlers.CollectFirstFailure | controllers/polygon.controller.js:385-391 | the loop's error is the first failing item's error |
| PolygonHandlers.ProcessPolygonShape | controllers/polygon.controller.js:382-398 | a processed item keeps every field and has geometry `{type: "Polygon", coordinates}` for validated coordinates |
| PolygonHandlers.ProcessPolygonIdempotent | controllers/polygon.controller.js:382-398 | processing a processed item again changes nothing |
| PolygonHandlers.BulkCreateIff | controllers/polygon.controller.js:366-402 | bulk create succeeds iff the list is a non-empty array whose every item processes, and then yields exactly the processed items in order |
| PolygonHandlers.NullItemRefused | controllers/polygon.controller.js:381-415 | a null item behind valid ones makes the request fail with 400 "Cannot read properties of null (reading 'geometry')" |
| PolygonHandlers.NullItemResponse | controllers/polygon.controller.js:382 | processing a null item fails with the TypeError message |
| PolygonHandlers.CreatePolygon | controllers/polygon.controller.js:128-179 | an invalid geometry or an unknown marker leaves the store unchanged and returns the error; otherwise one document is created and 201 is returned |
| PolygonHandlers.CreateAgreesWithBulk | controllers/polygon.controller.js:128-163 | without a marker, single create accepts exactly the items bulk create accepts and stores the same document |
| PolygonHandlers.PolygonDocument.constructor | controllers/polygon.controller.js:276 | a loaded document holds the given fields |
| PolygonHandlers.UpdatePolygon | controllers/polygon.controller.js:275-336 | a missing polygon gives 404; a failed check leaves the document unchanged; otherwise the body's fields, with geometry prepared, are merged over the document and 200 is returned |
| PolygonHandlers.UpdateWithoutGeometry | controllers/polygon.controller.js:286-320 | without a geometry in the body the stored geometry is kept and every body field is written |
| PolygonHandlers.UpdateWithGeometry | controllers/polygon.controller.js:290-320 | a truthy geometry is revalidated and stored in `{type, coordinates}` form |
| PolygonHandlers.FalsyGeometryAssigned | controllers/polygon.controller.js:290-320 | a falsy geometry skips revalidation and is written as given |
| PolygonSchema.CoordinatesValidOuterOnly | models/polygon.model.js:42-54 | the schema validator depends only on coords[0] |
| PolygonSchema.CoordinatesValidPairs | models/polygon.model.js:47-53 | for an outer ring of at least 4 pairs, the validator accepts iff first and last are equal |
| PolygonSchema.PositionValue | models/polygon.model.js:39 | a position is stored as an array of its numbers |
| PolygonSchema.RingValue | models/polygon.model.js:39 | a ring is stored as an array of positions |
| PolygonSchema.RingsValue | models/polygon.model.js:39 | rings are stored as an array of rings |
| PolygonSchema.PositionCastRoundTrip | models/polygon.model.js:39 | casting a stored position back gives the position |
| PolygonSchema.RingCastRoundTrip | models/polygon.model.js:39 | casting a stored ring back gives the ring |
| PolygonSchema.RingsCastRoundTrip | models/polygon.model.js:39 | casting stored rings back gives the rings |
| PolygonSchema.ControllerValidImpliesSchemaValid | models/polygon.model.js:42-54 | coordinates the controller validator accepts also pass the schema validator |
| PolygonSchema.HexColorIff | models/polygon.model.js:67 | a colour is valid iff it is '#' followed by exactly 6 or exactly 3 hex digits, in either case |
| PolygonSchema.HexColorExamples | models/polygon.model.js:64-84 | the defaults "#0000FF" and "#000000", "#F00" and "#ff0000" pass; "#FF00", "FF0000" and "#GG0000" fail |
| PolygonSchema.OneBrokenRuleOneViolation | models/polygon.model.js:73-166 | on a document that saves, a fill opacity outside [0, 1], a height outside [0, 1000], a maxZoom outside [0, 24] or a stroke colour that is not hex is reported at that path alone, and no other path fails |
| PolygonSchema.NewPolygonSaves | models/polygon.model.js:15-167 | a new document with a non-blank name and valid coordinates, every other path at its default, has no violation, so it saves |
| PolygonSchema.BlankNameRejected | models/polygon.model.js:6-10 | a name of only white space trims to empty and fails `required` first |
| PolygonSchema.CoordinateCount | models/polygon.model.js:178-184 | the forEach loop counts the sum of all ring lengths |
| PolygonSchema.TotalPositionsAppend | models/polygon.model.js:178-184 | the count of concatenated ring lists is the sum of their counts |
| PolygonSchema.TotalPositionsOuterAndHoles | models/polygon.model.js:178-184 | the count is the outer ring's length plus the holes' count |
| PolygonSchema.SavedCountsFour | models/polygon.model.js:48 | a document with no violation has a coordinateCount of at least 4 |
| PolygonSchema.ToGeoJSONGeometry | models/polygon.model.js:187-193 | toGeoJSON gives a Feature whose geometry type and coordinates are copied unchanged, and that the normaliser passes through |
| PolygonSchema.ToGeoJSONProperties | models/polygon.model.js:194-214 | each property is the free-form one when present, else the standard one; no other keys appear |
| PolygonSchema.PropertiesOverrideName | models/polygon.model.js:213 | a free-form "name" property overrides the document's name |
| MarkerTickets.DigitPrefix | controllers/marker.controller.js:19 | parseInt reads the longest run of leading digits |
| MarkerTickets.ParseIntDecimal | controllers/marker.controller.js:19 | parseInt of a decimal numeral followed by a non-digit gives its value |
| MarkerTickets.ParseIntNegativeDecimal | controllers/marker.controller.js:157 | parseInt of "-" and a numeral gives the negated value |
| MarkerTickets.ParseDigits | controllers/marker.controller.js:19 | parseInt of any digit run followed by a non-digit gives the run's value |
| MarkerTickets.ParseNegativeDigits | controllers/marker.controller.js:157 | the same for a leading minus sign |
| MarkerTickets.TrimStartUntouched | controllers/marker.controller.js:19 | parseInt skips no characters when the text starts with none that are white space |
| MarkerTickets.DigitPrefixOfDigits | controllers/marker.controller.js:19 | the digit prefix stops at the first non-digit |
| MarkerTickets.ParseIntIntegral | controllers/marker.controller.js:157 | parseInt of an integral number gives that integer |
| MarkerTickets.MapFrom | controllers/marker.controller.js:11-23 | the map step yields one entry per input, labelled by its original index |
| MarkerTickets.Present | controllers/marker.controller.js:24 | the filter step is no longer than its input |
| MarkerTickets.KeptHours | controllers/marker.controller.js:11-24 | the kept hours are exactly the indices of kept entries, in increasing order |
| MarkerTickets.TicketsOfHoursCons | controllers/marker.controller.js:11-24 | prepending a ticket for an hour keeps tickets and hours in step |
| MarkerTickets.TransformIsKeptHours | controllers/marker.controller.js:11-24 | the output is, in order, one ticket per kept entry, labelled by its original index and holding parseInt of the entry |
| MarkerTickets.TransformLength | controllers/marker.controller.js:11-24 | the output is no longer than the input, and exactly as long iff every entry is kept: a dropped entry always shortens it |
| MarkerTickets.DroppedEntryShortens | controllers/marker.controller.js:11-24 | an entry the filter drops leaves fewer kept hours than entries |
| MarkerTickets.AllKeptHours | controllers/marker.controller.js:11-24 | when every entry is kept there is one hour per entry |
| MarkerTickets.CreateKeepsLessThanUpdate | controllers/marker.controller.js:147-151 | every entry create keeps, update keeps; the entries only update keeps are 0 and false |
| MarkerTickets.ZeroSurvivesUpdateOnly | controllers/marker.controller.js:13 | a 0 entry survives update but not create |
| MarkerTickets.HourLabelExamples | controllers/marker.controller.js:14-18 | hour 0 gives "12:00 AM", 12 gives "12:00 PM", 13 gives "1:00 PM" |
| MarkerTickets.NumeralsBeforeColon | controllers/marker.controller.js:18 | two labels with equal text have equal numerals |
| MarkerTickets.HourLabelInjective | controllers/marker.controller.js:14-18 | distinct hours of the day get distinct labels |
| MarkerTickets.StripColonZeroZero | controllers/marker.controller.js:50 | removing ":00" never lengthens a label |
| MarkerTickets.StripWithoutColon | controllers/marker.controller.js:50 | text without ':' passes through the replacement unchanged |
| MarkerTickets.StripNonColonHead | controllers/marker.controller.js:50 | a first character other than ':' is kept |
| MarkerTickets.ReadLabel | controllers/marker.controller.js:93 | reading back a stored label gives "<hour> AM" or "<hour> PM" |
| MarkerTickets.StripPeriod | controllers/marker.controller.js:93 | ":00 AM" and ":00 PM" read as " AM" and " PM" |
| MarkerTickets.ReadLabelExample | controllers/marker.controller.js:50 | "12:00 AM" reads as "12 AM" |
| Text.NatToStringRoundTrip | controllers/marker.controller.js:18 | the decimal numeral in a label reads back as its number |
| Text.TrimSlice | utils/index.js:10 | trim removes exactly the leading and trailing white space |
| Text.TrimIdempotent | utils/index.js:10 | trimming twice is trimming once |
| Text.TrimEmptyIff | utils/index.js:10 | trim gives "" iff the text is all white space |
| Text.LowerOfLower | utils/index.js:10 | lowercasing twice is lowercasing once |
| Text.LastIndexOfBehind | utils/index.js:14 | the last '.' is the one after which no '.' follows |
| Utils.EscapeRegex | utils/index.js:5-7 | the escaped text is the input's length plus one per special character |
| Utils.Unescape | utils/index.js:6 | dropping the inserted backslashes never lengthens the text |
| Utils.EscapeRegexRoundTrip | utils/index.js:5-7 | dropping each inserted backslash gives back the input |
| Utils.EscapeRegexPlain | utils/index.js:6 | text without special characters is unchanged |
| Utils.EscapeRegexExample | utils/index.js:6 | "a.b*" becomes "a\\.b\\*" |
| Utils.LowerKeepsWhitespace | utils/index.js:10 | lowercasing neither creates nor removes white space |
| Utils.SanitizeEmailNormal | utils/index.js:9-11 | the sanitised email has no leading or trailing white space, and sanitising is idempotent |
| Utils.ContentTypeFromLastDot | utils/index.js:13-29 | the content type is the one of the lowercased text after the last '.' |
| Utils.ContentTypeCaseInsensitive | utils/index.js:14 | lowercasing the name does not change the content type |
| Utils.LastSegmentLower | utils/index.js:14 | the segment after the last '.' commutes with lowercasing |
| Utils.ContentTypeCapitals | utils/index.js:14-18 | "photo.JPG" gives "image/jpeg" |
| Utils.ContentTypeGif | utils/index.js:26-27 | "photo.gif" gives "application/octet-stream" |
| Utils.ContentTypeWithoutDot | utils/index.js:14-20 | a name without a dot is its own extension: "png" gives "image/png" |
| Uploads.StripTrailingSlashes | config/multer.js:44 | the path minus trailing '/' is a prefix ending in no '/' |
| Uploads.Basename | config/multer.js:44 | the base name holds no '/' |
| Uploads.ExtName | config/multer.js:44 | an extension is empty or a '.' followed by no '.' or '/' |
| Uploads.ExtNameAt | config/multer.js:44 | the extension starts at the last '.' of the base name when that is not at position 0 |
| Uploads.BasenameWithoutSlash | config/multer.js:44 | a name without '/' is its own base name |
| Uploads.ExtNameOfStem | config/multer.js:44 | "stem.ext" has extension ".ext" |
| Uploads.StemLastDot | config/multer.js:44 | the '.' before an extension without dots is the last one |
| Uploads.ExtNameOfDotFile | config/multer.js:44 | a name whose only dot is at position 0 has no extension |
| Uploads.ExtNameWithoutInnerDot | config/multer.js:44 | a base name with no '.' after position 0 has no extension |
| Uploads.StripTrailingSlashesLower | config/multer.js:44 | stripping slashes commutes with lowercasing |
| Uploads.BasenameLower | config/multer.js:44 | the base name commutes with lowercasing |
| Uploads.ExtNameLower | config/multer.js:44 | the extension commutes with lowercasing |
| Uploads.ImageWordIff | config/multer.js:43-45 | the unanchored test passes iff the text contains jpeg, jpg, png or gif |
| Uploads.CheckFileTypeNameCase | config/multer.js:44 | the case of the file name never changes the verdict |
| Uploads.SameExtensionSameVerdict | config/multer.js:44-50 | names whose lowercased extensions agree get the same verdict |
| Uploads.ImageFileAccepted | config/multer.js:42-48 | a file whose lowercased extension and whose mimetype both contain an image word is accepted |
| Uploads.NonImageMimetypeRefused | config/multer.js:45-50 | a mimetype containing no image word gets "Error: Images Only!" |
| Uploads.SanitizeFilename | config/multer.js:35 | the sanitised name is no longer than the name and holds no white space |
| Uploads.SanitizeFilenameUnchanged | config/multer.js:35 | a name without white space is unchanged |
| Uploads.SanitizeFilenameExample | config/multer.js:35 | a run of white space becomes a single "_": "a  b" gives "a_b" |
| Uploads.StorageKeyShape | config/multer.js:36 | the key ends with "_" and the sanitised name, and has no white space when the id has none |

## Left out

- Database execution is not modelled: `find`, `countDocuments`, `populate`, `save`, the geo predicates and the 2dsphere index are external I/O.
  - The store is an append-only sequence of documents.
  - A marker lookup is membership in a given set of known marker ids.
  - A loaded polygon is an object that may be null.
  - `findById` failing with a CastError, and schema validation failing inside `create`, `insertMany` or `save`, are not modelled. The handlers' catch branches are modelled only for the errors the pure code raises.
- The handlers for delete, bulk update, marker association and dissociation, get-by-id, the unpaginated list and the GeoJSON collection are not modelled. They are database calls with no logic of their own.
- The marker handlers' awaited S3 work (signed URLs, deleting old images) and the `deleteFile`, `downloadFile` and `getFileUrl` helpers are not modelled. They are I/O through the AWS SDK.
- The `shortid` id in the storage key is taken as an input: it is random.
- The multer `fileSize` limit, storage wiring and metadata callback are not modelled: they are library configuration.
- Authentication, routing, `asyncHandler` and the response helper are not modelled: they are glue code.
- Floating point is left out.
  - Numbers are exact reals.
  - Distances are compared squared instead of through `Math.sqrt`.
  - NaN, the infinities and rounding are not modelled.
- Simplification.SimplifyPolygon: requires tolerance >= 0. With a negative tolerance and more than three points, the source recurses on (start, 0) forever.
- Planar.PerpendicularDistanceIsMinimal: requires a chord of nonzero length. For a zero chord, DegenerateChord states the result instead.
- MarkerTickets.ParseInt: only plain decimal numerals and integral numbers are proved. An array entry is read as "no number", whereas JavaScript parses the text of its elements. Numbers written in exponent notation are not modelled.
- Text.Lower: covers ASCII letters only. JavaScript also lowercases other Unicode letters.
- `===` between two arrays or objects is modelled as false. Values parsed from a request body never share identity.
- GeometryConversion.Normalize: the messages of the `TypeError`s it rethrows follow the V8 engine's wording. Other engines word them differently.
- RingValidation.IndexCount: a `length` property that is a string is read only when it is a plain decimal numeral; signs, fractions, exponents and hexadecimal text, and an array as `length`, are read as no index. JavaScript converts these to the number they spell.
- PolygonHandlers.TotalPages: gives no value for a limit of 0 or NaN. The source divides by zero and sends Infinity or NaN.
- PolygonHandlers.UpdatePolygon: `Object.assign` onto a mongoose document is modelled as a map merge. Setter casting is not modelled.
- The marker ticket transform on a `tickets` value that is not an array is not modelled. The source throws a `TypeError` there.
