/**
 * The INSERT … SELECT statements of database_manager.rs as functions from table contents to the
 * rows they insert. The spatial store's functions (PostGIS) are parameters: geometries are
 * opaque handles, and only what the statements do with the answers is modelled.
 */
module Relations {
  import opened Wrappers
  import opened Failures
  import opened Models
  import opened Seqs
  import Geometry

  /** The spatial functions the statements call. */
  datatype Spatial = Spatial(
    geometryType: Models.Geometry -> string,            // ST_GeometryType
    dump: Models.Geometry -> seq<Models.Geometry>,      // ST_Dump
    asPolygonZ: Models.Geometry -> Option<Models.Geometry>, // ::geometry(PolygonZ); None when the cast fails
    makeValid: Models.Geometry -> Models.Geometry,      // ST_MakeValid
    isPlanar: Models.Geometry -> bool,                  // ST_IsPlanar
    pointDistance: (Vec3, Vec3) -> real,                // ST_3DDistance / ST_3DLength between two points
    dWithin: (Models.Geometry, Vec3, real) -> bool,     // ST_3DDWithin(geometry, point, threshold)
    distance: (Models.Geometry, Vec3) -> real,          // ST_3DDistance(geometry, point)
    intersects: (Models.Geometry, Segment) -> bool,     // ST_3DIntersects(geometry, line)
    intersection: (Models.Geometry, Segment) -> Models.Geometry) // ST_3DIntersection(geometry, line)

  // ---------------------------------------------------------------------------------------------
  // explode_feature_geometry_data

  /** The city model geometries that are exploded: polyhedral surfaces and multi-polygons. */
  predicate SurfaceSource(sp: Spatial, g: GeometryData)
  {
    sp.geometryType(g.geometry) == "ST_PolyhedralSurface" || sp.geometryType(g.geometry) == "ST_MultiPolygon"
  }

  /** One part of an exploded source geometry. */
  datatype Part = Part(source: GeometryData, part: Models.Geometry)

  function PartsOf(sp: Spatial, g: GeometryData): seq<Part>
  {
    seq(|sp.dump(g.geometry)|, i requires 0 <= i < |sp.dump(g.geometry)| => Part(g, sp.dump(g.geometry)[i]))
  }

  /** Every part of every source geometry, sources in table order. */
  function SurfaceParts(sp: Spatial, geometryData: seq<GeometryData>): (r: seq<Part>)
    ensures forall q :: q in r <==> q.source in geometryData && SurfaceSource(sp, q.source) && q.part in sp.dump(q.source.geometry)
  {
    var sources := Filter(geometryData, (g: GeometryData) => SurfaceSource(sp, g));
    var f := (g: GeometryData) => PartsOf(sp, g);
    var r := FlatMap(sources, f);
    assert forall q :: q in r <==> q.source in geometryData && SurfaceSource(sp, q.source) && q.part in sp.dump(q.source.geometry) by {
      forall q ensures q in r <==> q.source in geometryData && SurfaceSource(sp, q.source) && q.part in sp.dump(q.source.geometry) {
        FlatMapMember(sources, f, q);
        if q in r {
          var i :| 0 <= i < |sources| && q in f(sources[i]);
        }
        if q.source in geometryData && SurfaceSource(sp, q.source) && q.part in sp.dump(q.source.geometry) {
          var i :| 0 <= i < |sources| && sources[i] == q.source;
          var j :| 0 <= j < |sp.dump(q.source.geometry)| && sp.dump(q.source.geometry)[j] == q.part;
          assert f(sources[i])[j] == q;
        }
      }
    }
    r
  }

  /** The `valid_geometry` kept for a polygon: its repaired form, if that is a planar polygon. */
  function ValidPolygon(sp: Spatial, polygon: Models.Geometry): Option<Models.Geometry>
  {
    var v := sp.makeValid(polygon);
    if sp.geometryType(v) == "ST_Polygon" && sp.isPlanar(v) then Some(v) else None
  }

  /** The row of one part that casts to a polygon. */
  function RowOfPart(sp: Spatial, q: Part): (row: FeatureGeometryRow)
    requires sp.asPolygonZ(q.part).Some?
    ensures row.geometryDataId == q.source.id && row.featureId == q.source.featureId
    ensures Some(row.geometry) == sp.asPolygonZ(q.part) && row.validGeometry == ValidPolygon(sp, row.geometry)
  {
    var polygon := sp.asPolygonZ(q.part).value;
    FeatureGeometryRow(q.source.id, q.source.featureId, polygon, ValidPolygon(sp, polygon))
  }

  function RowsOfParts(sp: Spatial, parts: seq<Part>): (rows: seq<FeatureGeometryRow>)
    requires forall k :: 0 <= k < |parts| ==> sp.asPolygonZ(parts[k].part).Some?
    ensures forall row :: row in rows <==> exists q :: q in parts && sp.asPolygonZ(q.part).Some? && row == RowOfPart(sp, q)
  {
    if parts == [] then []
    else
      assert parts == [parts[0]] + parts[1..];
      [RowOfPart(sp, parts[0])] + RowsOfParts(sp, parts[1..])
  }

  /**
   * The rows `explode_feature_geometry_data` inserts into feature_geometry_data: one per part of
   * every polyhedral surface or multi-polygon, the part cast to a polygon and its usable repaired
   * form. A part that is not a polygon fails the whole statement.
   */
  function ExplodeFeatureGeometry(sp: Spatial, geometryData: seq<GeometryData>): (r: Result<seq<FeatureGeometryRow>, Failure>)
    ensures r.Failure? ==> r.error == Error(InvalidPolygonCast)
    ensures r.Failure? <==> exists q :: q in SurfaceParts(sp, geometryData) && sp.asPolygonZ(q.part).None?
    ensures r.Success? ==> forall row :: row in r.value <==>
              exists q :: q in SurfaceParts(sp, geometryData) && sp.asPolygonZ(q.part).Some? && row == RowOfPart(sp, q)
  {
    var parts := SurfaceParts(sp, geometryData);
    if exists k :: 0 <= k < |parts| && sp.asPolygonZ(parts[k].part).None? then Failure(Error(InvalidPolygonCast))
    else Success(RowsOfParts(sp, parts))
  }

  /**
   * Every exploded row comes from a polyhedral surface or multi-polygon of the city model, and its
   * valid geometry is set exactly when the repaired polygon is a planar `ST_Polygon`.
   */
  lemma ExplodedRowsFromSurfaces(sp: Spatial, geometryData: seq<GeometryData>, row: FeatureGeometryRow)
    requires ExplodeFeatureGeometry(sp, geometryData).Success?
    requires row in ExplodeFeatureGeometry(sp, geometryData).value
    ensures exists g :: g in geometryData && SurfaceSource(sp, g) && row.geometryDataId == g.id && row.featureId == g.featureId
    ensures row.validGeometry.Some? <==>
              sp.geometryType(sp.makeValid(row.geometry)) == "ST_Polygon" && sp.isPlanar(sp.makeValid(row.geometry))
    ensures row.validGeometry.Some? ==> row.validGeometry.value == sp.makeValid(row.geometry)
  {
    var q :| q in SurfaceParts(sp, geometryData) && sp.asPolygonZ(q.part).Some? && row == RowOfPart(sp, q);
    assert q.source in geometryData;
  }

  /** Every part of every polyhedral surface or multi-polygon gives a row, unless the statement fails. */
  lemma EveryPartExploded(sp: Spatial, geometryData: seq<GeometryData>, g: GeometryData, part: Models.Geometry)
    requires g in geometryData && SurfaceSource(sp, g) && part in sp.dump(g.geometry)
    ensures ExplodeFeatureGeometry(sp, geometryData).Failure? <==>
              exists q :: q in SurfaceParts(sp, geometryData) && sp.asPolygonZ(q.part).None?
    ensures ExplodeFeatureGeometry(sp, geometryData).Success? ==>
              exists row :: row in ExplodeFeatureGeometry(sp, geometryData).value &&
                row.geometryDataId == g.id && row.featureId == g.featureId && Some(row.geometry) == sp.asPolygonZ(part)
  {
    var q := Part(g, part);
    assert q in SurfaceParts(sp, geometryData);
    if ExplodeFeatureGeometry(sp, geometryData).Success? {
      assert RowOfPart(sp, q) in ExplodeFeatureGeometry(sp, geometryData).value;
    }
  }

  /** Geometries of any other type are not exploded: a city model without surfaces gives no rows. */
  lemma OnlySurfacesExploded(sp: Spatial, geometryData: seq<GeometryData>)
    requires forall g :: g in geometryData ==> !SurfaceSource(sp, g)
    ensures ExplodeFeatureGeometry(sp, geometryData) == Success([])
  {
  }

  // ---------------------------------------------------------------------------------------------
  // associate_points: beams

  /** True when `v` fits the `integer` (int4) columns of the beam table. */
  predicate Int4(v: int) { -0x8000_0000 <= v < 0x8000_0000 }

  predicate Int4Point(q: PatchPoint)
  {
    Int4(q.id) && Int4(q.timestampSec) && Int4(q.timestampNanosec) && Int4(q.rosMessageId) && Int4(q.rosPointId)
  }

  function OriginOf(q: PatchPoint): Vec3 { Vec3(q.beamOriginX, q.beamOriginY, q.beamOriginZ) }

  function ReflectionOf(q: PatchPoint): Vec3 { Vec3(q.x, q.y, q.z) }

  /**
   * The beam row of one exploded patch point: the segment from its beam origin to the point, that
   * segment's length, and the reflection line of length 2·threshold centred on the point. An integer
   * outside int4 or a zero-length beam fails the statement.
   */
  function BeamOf(sp: Spatial, threshold: real, patchId: int, id: int, q: PatchPoint): (r: Result<Beam, Failure>)
    ensures r.Failure? <==> !Int4Point(q) || sp.pointDistance(OriginOf(q), ReflectionOf(q)) == 0.0
    ensures r.Success? ==> r.value.id == id && r.value.patchId == patchId && r.value.pointId == q.id
  {
    if !Int4Point(q) then Failure(Error(IntegerOutOfRange))
    else
      var origin, reflection := OriginOf(q), ReflectionOf(q);
      var length := sp.pointDistance(origin, reflection);
      var line :- Geometry.ReflectionLine(origin, reflection, length, threshold);
      Success(Beam(id, patchId, q.id, q.timestampSec, q.timestampNanosec, q.intensity, origin, reflection,
                   Segment(origin, reflection), length, line, q.rosMessageId, q.rosPointId))
  }

  /** A beam runs from the point's beam origin to the point, has that segment's non-zero length,
      and its reflection line is centred on the point. */
  lemma BeamOfGeometry(sp: Spatial, threshold: real, patchId: int, id: int, q: PatchPoint)
    requires BeamOf(sp, threshold, patchId, id, q).Success?
    ensures var b := BeamOf(sp, threshold, patchId, id, q).value;
            && b.origin == OriginOf(q) && b.reflection == ReflectionOf(q)
            && b.line == Segment(OriginOf(q), ReflectionOf(q))
            && b.length == sp.pointDistance(OriginOf(q), ReflectionOf(q)) && b.length != 0.0
            && b.reflectionLine == Geometry.ReflectionLine(OriginOf(q), ReflectionOf(q), b.length, threshold).value
            && Geometry.Midpoint(b.reflectionLine) == ReflectionOf(q)
  {
    Geometry.ReflectionLineCentredOnReflection(OriginOf(q), ReflectionOf(q), sp.pointDistance(OriginOf(q), ReflectionOf(q)), threshold);
  }

  /** The beams of a run of exploded points, numbered from `firstId`; the first failing point fails the statement. */
  function BeamsOf(sp: Spatial, threshold: real, patchId: int, firstId: int, points: seq<PatchPoint>): (r: Result<seq<Beam>, Failure>)
    ensures r.Failure? <==> exists k :: 0 <= k < |points| && BeamOf(sp, threshold, patchId, firstId + k, points[k]).Failure?
    ensures r.Success? ==> |r.value| == |points|
    ensures r.Success? ==> forall k :: 0 <= k < |points| ==> Success(r.value[k]) == BeamOf(sp, threshold, patchId, firstId + k, points[k])
    decreases |points|
  {
    if points == [] then Success([])
    else
      var head := BeamOf(sp, threshold, patchId, firstId, points[0]);
      var rest := BeamsOf(sp, threshold, patchId, firstId + 1, points[1..]);
      if head.Failure? then head.PropagateFailure()
      else if rest.Failure? then
        var k :| 0 <= k < |points[1..]| && BeamOf(sp, threshold, patchId, firstId + 1 + k, points[1..][k]).Failure?;
        assert points[1..][k] == points[k + 1] && firstId + 1 + k == firstId + (k + 1);
        rest.PropagateFailure()
      else
        assert forall k :: 1 <= k < |points| ==> points[k] == points[1..][k - 1] && firstId + k == firstId + 1 + (k - 1);
        Success([head.value] + rest.value)
  }

  /** The points of the patch with id `patchId`, in patch order. */
  function PatchPointsOf(uploads: seq<UploadRow>, patchId: int): seq<PatchPoint>
  {
    FlatMap(Filter(uploads, (u: UploadRow) => u.id == patchId), (u: UploadRow) => u.points)
  }

  /** The rows the beam statement of `associate_points` inserts for one patch, numbered from `firstId`. */
  function BeamsOfPatch(sp: Spatial, threshold: real, uploads: seq<UploadRow>, patchId: int, firstId: int): Result<seq<Beam>, Failure>
  {
    BeamsOf(sp, threshold, patchId, firstId, PatchPointsOf(uploads, patchId))
  }

  /** When the patch's points all give a beam, there is one beam per point, numbered from `firstId`
      in patch order, with that point's id and geometry. */
  lemma BeamPerPoint(sp: Spatial, threshold: real, uploads: seq<UploadRow>, patchId: int, firstId: int, k: nat)
    requires BeamsOfPatch(sp, threshold, uploads, patchId, firstId).Success?
    requires k < |PatchPointsOf(uploads, patchId)|
    ensures var beams := BeamsOfPatch(sp, threshold, uploads, patchId, firstId).value;
            var q := PatchPointsOf(uploads, patchId)[k];
            && |beams| == |PatchPointsOf(uploads, patchId)|
            && beams[k].id == firstId + k && beams[k].patchId == patchId && beams[k].pointId == q.id
            && beams[k].reflection == ReflectionOf(q) && beams[k].origin == OriginOf(q)
            && Geometry.Midpoint(beams[k].reflectionLine) == beams[k].reflection
  {
    var beams := BeamsOfPatch(sp, threshold, uploads, patchId, firstId).value;
    assert Success(beams[k]) == BeamOf(sp, threshold, patchId, firstId + k, PatchPointsOf(uploads, patchId)[k]);
    BeamOfGeometry(sp, threshold, patchId, firstId + k, PatchPointsOf(uploads, patchId)[k]);
  }

  // ---------------------------------------------------------------------------------------------
  // associate_points: associations

  function OfPatch(beams: seq<Beam>, patchId: int): seq<Beam>
  {
    Filter(beams, (b: Beam) => b.patchId == patchId)
  }

  /**
   * The point-model statement: DISTINCT (beam, feature, distance) triples for every beam of the
   * patch and every city model geometry within `threshold` of its reflection point.
   */
  function PointModelRows(sp: Spatial, threshold: real, beams: seq<Beam>, patchId: int, geometryData: seq<GeometryData>): (r: seq<PointModelRow>)
    ensures NoDuplicates(r)
    ensures forall row :: row in r <==>
              exists b, g :: b in beams && b.patchId == patchId && g in geometryData &&
                sp.dWithin(g.geometry, b.reflection, threshold) &&
                row == PointModelRow(b.id, g.featureId, sp.distance(g.geometry, b.reflection))
  {
    var on := (b: Beam, g: GeometryData) => sp.dWithin(g.geometry, b.reflection, threshold);
    var sel := (b: Beam, g: GeometryData) => PointModelRow(b.id, g.featureId, sp.distance(g.geometry, b.reflection));
    var r := Distinct(InnerJoin(OfPatch(beams, patchId), geometryData, on, sel));
    assert forall row :: row in r <==>
              exists b, g :: b in beams && b.patchId == patchId && g in geometryData && on(b, g) && row == sel(b, g) by {
      forall row ensures row in r <==>
              exists b, g :: b in beams && b.patchId == patchId && g in geometryData && on(b, g) && row == sel(b, g) {
        DistinctJoinMember(beams, (b: Beam) => b.patchId == patchId, geometryData, on, sel, row);
      }
    }
    r
  }

  /** A feature geometry row that the beam-model statement joins against: one with a valid geometry. */
  datatype ValidFeature = ValidFeature(featureId: int, valid: Models.Geometry)

  function ValidFeatures(rows: seq<FeatureGeometryRow>): (r: seq<ValidFeature>)
    ensures forall v :: v in r <==> exists row :: row in rows && row.validGeometry == Some(v.valid) && row.featureId == v.featureId
  {
    if rows == [] then []
    else
      var rest := ValidFeatures(rows[1..]);
      var head := if rows[0].validGeometry.Some? then [ValidFeature(rows[0].featureId, rows[0].validGeometry.value)] else [];
      assert forall row :: row in rows[1..] ==> row in rows;
      assert forall row :: row in rows ==> row == rows[0] || row in rows[1..];
      head + rest
  }

  /**
   * The beam-model statement: DISTINCT (beam, feature, intersection) for every beam of the patch
   * and every exploded polygon with a valid geometry that its reflection line intersects.
   */
  function BeamModelRows(sp: Spatial, beams: seq<Beam>, patchId: int, features: seq<FeatureGeometryRow>): (r: seq<BeamModelRow>)
    ensures NoDuplicates(r)
    ensures forall row :: row in r <==>
              exists b, g :: b in beams && b.patchId == patchId && g in features && g.validGeometry.Some? &&
                sp.intersects(g.validGeometry.value, b.reflectionLine) &&
                row == BeamModelRow(b.id, g.featureId, sp.intersection(g.validGeometry.value, b.reflectionLine))
  {
    var on := (b: Beam, v: ValidFeature) => sp.intersects(v.valid, b.reflectionLine);
    var sel := (b: Beam, v: ValidFeature) => BeamModelRow(b.id, v.featureId, sp.intersection(v.valid, b.reflectionLine));
    var valid := ValidFeatures(features);
    var r := Distinct(InnerJoin(OfPatch(beams, patchId), valid, on, sel));
    assert forall row :: row in r <==>
              exists b, v :: b in beams && b.patchId == patchId && v in valid && on(b, v) && row == sel(b, v) by {
      forall row ensures row in r <==>
              exists b, v :: b in beams && b.patchId == patchId && v in valid && on(b, v) && row == sel(b, v) {
        DistinctJoinMember(beams, (b: Beam) => b.patchId == patchId, valid, on, sel, row);
      }
    }
    forall row | row in r
      ensures exists b, g :: b in beams && b.patchId == patchId && g in features && g.validGeometry.Some? &&
                sp.intersects(g.validGeometry.value, b.reflectionLine) &&
                row == BeamModelRow(b.id, g.featureId, sp.intersection(g.validGeometry.value, b.reflectionLine))
    {
      var b, v :| b in beams && b.patchId == patchId && v in valid && on(b, v) && row == sel(b, v);
      var g :| g in features && g.validGeometry == Some(v.valid) && g.featureId == v.featureId;
    }
    forall row | exists b, g :: b in beams && b.patchId == patchId && g in features && g.validGeometry.Some? &&
                   sp.intersects(g.validGeometry.value, b.reflectionLine) &&
                   row == BeamModelRow(b.id, g.featureId, sp.intersection(g.validGeometry.value, b.reflectionLine))
      ensures row in r
    {
      var b, g :| b in beams && b.patchId == patchId && g in features && g.validGeometry.Some? &&
                   sp.intersects(g.validGeometry.value, b.reflectionLine) &&
                   row == BeamModelRow(b.id, g.featureId, sp.intersection(g.validGeometry.value, b.reflectionLine));
      var v := ValidFeature(g.featureId, g.validGeometry.value);
      assert v in valid && on(b, v) && row == sel(b, v);
    }
    r
  }

  // ---------------------------------------------------------------------------------------------
  // download_associate_points

  /** A row of the city model subquery: a feature, its `name` property and its class name. */
  datatype Meta = Meta(featureId: int, objectid: string, name: Option<string>, classname: Option<string>)

  function ClassesOf(city: CityModel, f: Feature): seq<ObjectClass>
  {
    Filter(city.objectClasses, (oc: ObjectClass) => f.objectclassId == Some(oc.id))
  }

  function NamesOf(city: CityModel, f: Feature): seq<Property>
  {
    Filter(city.properties, (p: Property) => p.featureId == f.id && p.name == "name")
  }

  function NameOf(p: Option<Property>): Option<string> { if p.Some? then p.value.valString else None }

  function ClassnameOf(oc: Option<ObjectClass>): Option<string> { if oc.Some? then oc.value.classname else None }

  /** The subquery `feature LEFT JOIN objectclass LEFT JOIN (property WHERE name = 'name')`. */
  function MetadataRows(city: CityModel): seq<Meta>
  {
    FlatMap(city.features, (f: Feature) =>
      FlatMap(Options(ClassesOf(city, f)), (oc: Option<ObjectClass>) =>
        Map(Options(NamesOf(city, f)), (p: Option<Property>) => Meta(f.id, f.objectid, NameOf(p), ClassnameOf(oc)))))
  }

  /** The metadata rows the LEFT JOIN on `apm.feature_id` pairs with a point-model match, or NULL. */
  function MetaOptions(meta: seq<Meta>, y: Option<PointModelRow>): seq<Option<Meta>>
  {
    if y.None? then [None] else Options(Filter(meta, (m: Meta) => m.featureId == y.value.featureId))
  }

  /** A download row for beam `b` with its optional beam-model, point-model and metadata matches;
      its serial id is assigned when it is inserted. */
  function DownloadEntryOf(b: Beam, x: Option<BeamModelRow>, y: Option<PointModelRow>, m: Option<Meta>): DownloadEntry
  {
    DownloadEntry(0, b.patchId, b.reflection.x, b.reflection.y, b.reflection.z, b.pointId,
                  b.timestampSec, b.timestampNanosec, b.intensity, b.origin.x, b.origin.y, b.origin.z,
                  b.length, b.rosMessageId, b.rosPointId,
                  if m.Some? then Some(m.value.objectid) else None,
                  if m.Some? then m.value.name else None,
                  if m.Some? then m.value.classname else None,
                  if y.Some? then Some(y.value.distance) else None,
                  if x.Some? then Some(1.0) else None)
  }

  function BeamModelOf(abm: seq<BeamModelRow>, b: Beam): seq<BeamModelRow>
  {
    Filter(abm, (x: BeamModelRow) => x.beamId == b.id)
  }

  function PointModelOf(apm: seq<PointModelRow>, b: Beam): seq<PointModelRow>
  {
    Filter(apm, (y: PointModelRow) => y.beamId == b.id)
  }

  function RowsForPointModel(b: Beam, x: Option<BeamModelRow>, ys: seq<Option<PointModelRow>>, meta: seq<Meta>): seq<DownloadEntry>
  {
    FlatMap(ys, (y: Option<PointModelRow>) => Map(MetaOptions(meta, y), (m: Option<Meta>) => DownloadEntryOf(b, x, y, m)))
  }

  /** The rows `beam LEFT JOIN abm LEFT JOIN apm LEFT JOIN cdb` gives one beam. */
  function DownloadRowsOfBeam(b: Beam, abm: seq<BeamModelRow>, apm: seq<PointModelRow>, meta: seq<Meta>): seq<DownloadEntry>
  {
    var ys := Options(PointModelOf(apm, b));
    FlatMap(Options(BeamModelOf(abm, b)), (x: Option<BeamModelRow>) => RowsForPointModel(b, x, ys, meta))
  }

  /** Rows numbered with consecutive serial ids from `firstId`. */
  function Numbered(rows: seq<DownloadEntry>, firstId: int): (r: seq<DownloadEntry>)
    ensures |r| == |rows| && forall k :: 0 <= k < |rows| ==> r[k] == rows[k].(id := firstId + k)
  {
    seq(|rows|, k requires 0 <= k < |rows| => rows[k].(id := firstId + k))
  }

  /** The rows the download statement inserts for one patch, numbered from `firstId`. */
  function DownloadRows(beams: seq<Beam>, patchId: int, abm: seq<BeamModelRow>, apm: seq<PointModelRow>,
                        city: CityModel, firstId: int): seq<DownloadEntry>
  {
    var meta := MetadataRows(city);
    Numbered(FlatMap(OfPatch(beams, patchId), (b: Beam) => DownloadRowsOfBeam(b, abm, apm, meta)), firstId)
  }

  /** Every beam gives at least one download row, whatever its matches. */
  lemma EveryBeamDownloaded(b: Beam, abm: seq<BeamModelRow>, apm: seq<PointModelRow>, meta: seq<Meta>)
    ensures DownloadRowsOfBeam(b, abm, apm, meta) != []
  {
    var ys := Options(PointModelOf(apm, b));
    var xs := Options(BeamModelOf(abm, b));
    forall x | x in xs ensures RowsForPointModel(b, x, ys, meta) != [] {
      var f := (y: Option<PointModelRow>) => Map(MetaOptions(meta, y), (m: Option<Meta>) => DownloadEntryOf(b, x, y, m));
      FlatMapNonEmpty(ys, f);
    }
    FlatMapNonEmpty(xs, (x: Option<BeamModelRow>) => RowsForPointModel(b, x, ys, meta));
  }

  /**
   * With at most one metadata row per feature, a beam with q beam-model and p point-model matches
   * gives max(1, q)·max(1, p) download rows.
   */
  lemma DownloadRowCount(b: Beam, abm: seq<BeamModelRow>, apm: seq<PointModelRow>, meta: seq<Meta>)
    requires forall y :: y in apm ==> |Filter(meta, (m: Meta) => m.featureId == y.featureId)| <= 1
    ensures var p, q := |PointModelOf(apm, b)|, |BeamModelOf(abm, b)|;
            |DownloadRowsOfBeam(b, abm, apm, meta)| == (if q == 0 then 1 else q) * (if p == 0 then 1 else p)
  {
    var ys := Options(PointModelOf(apm, b));
    var xs := Options(BeamModelOf(abm, b));
    var g := (x: Option<BeamModelRow>) => RowsForPointModel(b, x, ys, meta);
    forall i | 0 <= i < |xs| ensures |g(xs[i])| == |ys| {
      RowsForPointModelCount(b, xs[i], abm, apm, meta);
    }
    FlatMapUniformLength(xs, g, |ys|);
    assert |DownloadRowsOfBeam(b, abm, apm, meta)| == |xs| * |ys|;
  }

  /** With at most one metadata row per feature, each point-model match (or the NULL standing for
      none) gives one download row. */
  lemma RowsForPointModelCount(b: Beam, x: Option<BeamModelRow>, abm: seq<BeamModelRow>, apm: seq<PointModelRow>, meta: seq<Meta>)
    requires forall y :: y in apm ==> |Filter(meta, (m: Meta) => m.featureId == y.featureId)| <= 1
    ensures var ys := Options(PointModelOf(apm, b));
            |RowsForPointModel(b, x, ys, meta)| == |ys|
  {
    var ys := Options(PointModelOf(apm, b));
    var f := (y: Option<PointModelRow>) => Map(MetaOptions(meta, y), (m: Option<Meta>) => DownloadEntryOf(b, x, y, m));
    forall i | 0 <= i < |ys| ensures |f(ys[i])| == 1 {
      if ys[i].Some? {
        OptionsMember(PointModelOf(apm, b), ys[i]);
        FilterMember(apm, (y: PointModelRow) => y.beamId == b.id, ys[i].value);
      }
    }
    FlatMapUniformLength(ys, f, 1);
  }

  /** A download row of a beam is made from one beam-model option, one point-model option and one
      metadata option of the LEFT JOINs. */
  lemma DownloadRowMatches(b: Beam, abm: seq<BeamModelRow>, apm: seq<PointModelRow>, meta: seq<Meta>, e: DownloadEntry)
    requires e in DownloadRowsOfBeam(b, abm, apm, meta)
    ensures exists x, y, m :: x in Options(BeamModelOf(abm, b)) && y in Options(PointModelOf(apm, b)) &&
                              m in MetaOptions(meta, y) && e == DownloadEntryOf(b, x, y, m)
  {
    var ys := Options(PointModelOf(apm, b));
    var xs := Options(BeamModelOf(abm, b));
    var g := (x: Option<BeamModelRow>) => RowsForPointModel(b, x, ys, meta);
    FlatMapMember(xs, g, e);
    var i :| 0 <= i < |xs| && e in g(xs[i]);
    var x := xs[i];
    var f := (y: Option<PointModelRow>) => Map(MetaOptions(meta, y), (m: Option<Meta>) => DownloadEntryOf(b, x, y, m));
    FlatMapMember(ys, f, e);
    var j :| 0 <= j < |ys| && e in f(ys[j]);
    var y := ys[j];
    var metas := MetaOptions(meta, y);
    var k :| 0 <= k < |metas| && e == DownloadEntryOf(b, x, y, metas[k]);
    assert x in xs && y in ys && metas[k] in metas;
  }

  /**
   * Every download row of a beam carries the beam's reflection, origin and length; it has an
   * intersection angle, equal to 1, exactly when the beam has a beam-model match; and it has a
   * surface distance exactly when it was paired with a point-model match of the beam.
   */
  lemma DownloadRowOfBeam(b: Beam, abm: seq<BeamModelRow>, apm: seq<PointModelRow>, meta: seq<Meta>, e: DownloadEntry)
    requires e in DownloadRowsOfBeam(b, abm, apm, meta)
    ensures e.patchId == b.patchId && e.pointId == b.pointId && e.beamLength == b.length
    ensures Vec3(e.x, e.y, e.z) == b.reflection && Vec3(e.beamOriginX, e.beamOriginY, e.beamOriginZ) == b.origin
    ensures e.intersectionAngle.Some? <==> exists x :: x in abm && x.beamId == b.id
    ensures e.intersectionAngle.Some? ==> e.intersectionAngle.value == 1.0
    ensures e.surfaceDistance.Some? ==> exists y :: y in apm && y.beamId == b.id && e.surfaceDistance == Some(y.distance)
    ensures e.surfaceDistance.None? ==> PointModelOf(apm, b) == []
    ensures e.gmlId.Some? ==>
              exists y, m :: y in apm && y.beamId == b.id && m in meta && m.featureId == y.featureId &&
                e.gmlId == Some(m.objectid) && e.gmlName == m.name && e.classname == m.classname
    ensures e.surfaceDistance.None? ==> e.gmlId.None? && e.gmlName.None? && e.classname.None?
  {
    DownloadRowMatches(b, abm, apm, meta, e);
    var x, y, m :| x in Options(BeamModelOf(abm, b)) && y in Options(PointModelOf(apm, b)) &&
                   m in MetaOptions(meta, y) && e == DownloadEntryOf(b, x, y, m);
    OptionsMember(BeamModelOf(abm, b), x);
    OptionsMember(PointModelOf(apm, b), y);
    if x.Some? {
      FilterMember(abm, (r: BeamModelRow) => r.beamId == b.id, x.value);
    } else {
      forall r | r in abm && r.beamId == b.id ensures false {
        FilterMember(abm, (r: BeamModelRow) => r.beamId == b.id, r);
      }
    }
    if y.Some? {
      FilterMember(apm, (r: PointModelRow) => r.beamId == b.id, y.value);
      if m.Some? {
        var ms := Filter(meta, (n: Meta) => n.featureId == y.value.featureId);
        OptionsMember(ms, m);
        FilterMember(meta, (n: Meta) => n.featureId == y.value.featureId, m.value);
      }
    }
  }
}
