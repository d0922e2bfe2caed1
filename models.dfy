/**
 * Row shapes of the tables the system reads and writes: its own tables in the sensor_data schema
 * and the city model tables it only reads. Serial `id` columns that nothing refers to are omitted.
 */
module Models {
  import opened Wrappers
  import PointClouds

  datatype Vec3 = Vec3(x: real, y: real, z: real)

  datatype Segment = Segment(start: Vec3, end: Vec3)

  /** A geometry value of the spatial store; the store's functions are the only way to inspect it. */
  datatype Geometry = Geometry(handle: int)

  /** A point of a stored patch: the twelve attributes the upload statement lists for it. */
  datatype PatchPoint = PatchPoint(
    x: real, y: real, z: real, id: nat, timestampSec: int, timestampNanosec: nat, intensity: real,
    beamOriginX: real, beamOriginY: real, beamOriginZ: real, rosMessageId: nat, rosPointId: nat)

  /** point_cloud_upload: a patch and its points, in the order they were listed. */
  datatype UploadRow = UploadRow(id: int, points: seq<PatchPoint>)

  /** beam: one exploded point of a patch with the segment from its beam origin to its reflection. */
  datatype Beam = Beam(
    id: int, patchId: int, pointId: int, timestampSec: int, timestampNanosec: int, intensity: real,
    origin: Vec3, reflection: Vec3, line: Segment, length: real, reflectionLine: Segment,
    rosMessageId: int, rosPointId: int)

  /** association_point_model */
  datatype PointModelRow = PointModelRow(beamId: int, featureId: int, distance: real)

  /** association_beam_model */
  datatype BeamModelRow = BeamModelRow(beamId: int, featureId: int, intersection: Geometry)

  /** feature_geometry_data: one polygon of a surface of the city model and its repaired form, if usable. */
  datatype FeatureGeometryRow = FeatureGeometryRow(
    geometryDataId: int, featureId: int, geometry: Geometry, validGeometry: Option<Geometry>)

  /** point_cloud_download, as `PointCloudDownloadEntry` reads it. */
  datatype DownloadEntry = DownloadEntry(
    id: int, patchId: int, x: real, y: real, z: real, pointId: int,
    timestampSec: int, timestampNanosec: int, intensity: real,
    beamOriginX: real, beamOriginY: real, beamOriginZ: real, beamLength: real,
    rosMessageId: int, rosPointId: int,
    gmlId: Option<string>, gmlName: Option<string>, classname: Option<string>,
    surfaceDistance: Option<real>, intersectionAngle: Option<real>)

  /** citydb.geometry_data */
  datatype GeometryData = GeometryData(id: int, featureId: int, geometry: Geometry)

  /** citydb.feature */
  datatype Feature = Feature(id: int, objectclassId: Option<int>, objectid: string)

  /** citydb.objectclass */
  datatype ObjectClass = ObjectClass(id: int, classname: Option<string>)

  /** citydb.property */
  datatype Property = Property(featureId: int, name: string, valString: Option<string>)

  /** The city model tables, read but never written by the system. */
  datatype CityModel = CityModel(
    geometryData: seq<GeometryData>, features: seq<Feature>,
    objectClasses: seq<ObjectClass>, properties: seq<Property>)
}
