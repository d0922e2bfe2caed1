/**
 * The in-memory point cloud that is uploaded: rows of nullable attribute values, with the set of
 * optional attribute columns the cloud's data frame has. The x, y and z columns are part of every
 * cloud; the other attributes exist only once a column for them has been added.
 */
module PointClouds {
  import opened Wrappers
  import Seqs

  /** The attributes of a point that an upload statement carries. */
  datatype Dim =
    | X | Y | Z | Id | TimestampSec | TimestampNanosec | Intensity
    | BeamOriginX | BeamOriginY | BeamOriginZ | RosMessageId | RosPointId

  /** The order in which every point's values are written into the patch statement. */
  const PatchDims: seq<Dim> := [X, Y, Z, Id, TimestampSec, TimestampNanosec, Intensity,
                                BeamOriginX, BeamOriginY, BeamOriginZ, RosMessageId, RosPointId]

  /** A value as the patch statement carries it: from a float column or from an integer column. */
  datatype Value = Float(r: real) | Integer(i: int)

  /** One row of the data frame; `None` is a null entry (or the entry of a column the cloud lacks). */
  datatype PointRow = PointRow(
    x: Option<real>, y: Option<real>, z: Option<real>,
    id: Option<nat>,
    timestampSec: Option<int>, timestampNanosec: Option<nat>,
    intensity: Option<real>,
    beamOriginX: Option<real>, beamOriginY: Option<real>, beamOriginZ: Option<real>,
    rosMessageId: Option<nat>, rosPointId: Option<nat>)

  /** `optional` lists the columns other than x, y and z that the data frame has. */
  datatype PointCloud = PointCloud(optional: set<Dim>, rows: seq<PointRow>)

  function FloatValue(o: Option<real>): Option<Value>
  {
    match o
    case Some(r) => Some(Float(r))
    case None => None
  }

  function IntegerValue(o: Option<int>): Option<Value>
  {
    match o
    case Some(i) => Some(Integer(i))
    case None => None
  }

  /** The entry of row `p` in the column of attribute `d`. */
  function Field(p: PointRow, d: Dim): Option<Value>
  {
    match d
    case X => FloatValue(p.x)
    case Y => FloatValue(p.y)
    case Z => FloatValue(p.z)
    case Id => IntegerValue(p.id)
    case TimestampSec => IntegerValue(p.timestampSec)
    case TimestampNanosec => IntegerValue(p.timestampNanosec)
    case Intensity => FloatValue(p.intensity)
    case BeamOriginX => FloatValue(p.beamOriginX)
    case BeamOriginY => FloatValue(p.beamOriginY)
    case BeamOriginZ => FloatValue(p.beamOriginZ)
    case RosMessageId => IntegerValue(p.rosMessageId)
    case RosPointId => IntegerValue(p.rosPointId)
  }

  /** `add_sequential_id`: row `i` gets the id `i`, and the cloud has an id column. */
  function AddSequentialId(pc: PointCloud): (r: PointCloud)
    ensures r.optional == pc.optional + {Id}
    ensures |r.rows| == |pc.rows|
    ensures forall i :: 0 <= i < |r.rows| ==> r.rows[i] == pc.rows[i].(id := Some(i))
  {
    PointCloud(pc.optional + {Id}, seq(|pc.rows|, i requires 0 <= i < |pc.rows| => pc.rows[i].(id := Some(i))))
  }

  /** The attributes `upload_point_cloud` fills with zeros before partitioning, in the order it adds them. */
  const ZeroFilledDims: seq<Dim> := [TimestampSec, TimestampNanosec, Intensity,
                                     BeamOriginX, BeamOriginY, BeamOriginZ, RosMessageId, RosPointId]

  function ZeroFilledRow(p: PointRow): PointRow
  {
    p.(timestampSec := Some(0), timestampNanosec := Some(0), intensity := Some(0.0),
       beamOriginX := Some(0.0), beamOriginY := Some(0.0), beamOriginZ := Some(0.0),
       rosMessageId := Some(0), rosPointId := Some(0))
  }

  /** The cloud after the eight `add_*_column` calls, each filling its column with zeros. */
  function ZeroFilled(pc: PointCloud): (r: PointCloud)
    ensures |r.rows| == |pc.rows|
    ensures forall i :: 0 <= i < |r.rows| ==> r.rows[i].id == pc.rows[i].id
  {
    PointCloud(pc.optional + {TimestampSec, TimestampNanosec, Intensity, BeamOriginX, BeamOriginY,
                              BeamOriginZ, RosMessageId, RosPointId},
               seq(|pc.rows|, i requires 0 <= i < |pc.rows| => ZeroFilledRow(pc.rows[i])))
  }

  /** After zero filling, each of those columns exists and holds zeros, and every other column is
      as it was. */
  lemma ZeroFilledColumns(pc: PointCloud)
    ensures forall d :: d in ZeroFilledDims ==> d in ZeroFilled(pc).optional
    ensures forall i, d :: 0 <= i < |pc.rows| && d in ZeroFilledDims ==>
              Field(ZeroFilled(pc).rows[i], d) == if d in {Intensity, BeamOriginX, BeamOriginY, BeamOriginZ}
                                                  then Some(Float(0.0)) else Some(Integer(0))
    ensures forall i, d :: 0 <= i < |pc.rows| && d !in ZeroFilledDims ==>
              Field(ZeroFilled(pc).rows[i], d) == Field(pc.rows[i], d)
  {
    forall i, d | 0 <= i < |pc.rows|
      ensures Field(ZeroFilled(pc).rows[i], d) == ZeroFilledField(pc.rows[i], d)
    {
      ZeroFilledRowField(pc.rows[i], d);
    }
  }

  /** What column `d` of a zero-filled row holds. */
  function ZeroFilledField(p: PointRow, d: Dim): Option<Value>
  {
    if d !in ZeroFilledDims then Field(p, d)
    else if d in {Intensity, BeamOriginX, BeamOriginY, BeamOriginZ} then Some(Float(0.0))
    else Some(Integer(0))
  }

  lemma ZeroFilledRowField(p: PointRow, d: Dim)
    ensures Field(ZeroFilledRow(p), d) == ZeroFilledField(p, d)
  {
  }

  /** The non-null point ids, in row order. */
  function Ids(rows: seq<PointRow>): (r: seq<nat>)
    ensures forall k :: 0 <= k < |r| ==> exists i :: 0 <= i < |rows| && rows[i].id == Some(r[k])
    ensures forall i :: 0 <= i < |rows| && rows[i].id.Some? ==> rows[i].id.value in r
  {
    if rows == [] then []
    else
      var rest := Ids(rows[1..]);
      assert forall k :: 0 <= k < |rest| ==> exists i :: 0 <= i < |rows| && rows[i].id == Some(rest[k]) by {
        forall k | 0 <= k < |rest| ensures exists i :: 0 <= i < |rows| && rows[i].id == Some(rest[k]) {
          var i :| 0 <= i < |rows[1..]| && rows[1..][i].id == Some(rest[k]);
          assert rows[i + 1].id == Some(rest[k]);
        }
      }
      match rows[0].id
      case Some(v) => [v] + rest
      case None => rest
  }

  function Min(s: seq<nat>): (m: nat)
    requires s != []
    ensures m in s && forall k :: 0 <= k < |s| ==> m <= s[k]
  {
    if |s| == 1 then s[0] else var m := Min(s[1..]); if s[0] <= m then s[0] else m
  }

  function Max(s: seq<nat>): (m: nat)
    requires s != []
    ensures m in s && forall k :: 0 <= k < |s| ==> s[k] <= m
  {
    if |s| == 1 then s[0] else var m := Max(s[1..]); if s[0] >= m then s[0] else m
  }

  /** True when row `p` has an id within `[lo, hi]`. */
  predicate IdWithin(p: PointRow, lo: int, hi: int)
  {
    p.id.Some? && lo <= p.id.value <= hi
  }

  /** `filter_by_id_range(Some(lo), Some(hi))`: the rows with an id in the inclusive range, in order. */
  function FilterByIdRange(pc: PointCloud, lo: int, hi: int): (r: PointCloud)
    ensures r.optional == pc.optional
    ensures forall p :: p in r.rows <==> p in pc.rows && IdWithin(p, lo, hi)
  {
    var rows := Seqs.Filter(pc.rows, p => IdWithin(p, lo, hi));
    assert forall p :: p in rows <==> p in pc.rows && IdWithin(p, lo, hi) by {
      forall p ensures p in rows <==> p in pc.rows && IdWithin(p, lo, hi) {
        if p in rows {
          var i :| 0 <= i < |rows| && rows[i] == p;
        }
        if p in pc.rows && IdWithin(p, lo, hi) {
          var i :| 0 <= i < |pc.rows| && pc.rows[i] == p;
        }
      }
    }
    PointCloud(pc.optional, rows)
  }
}

/** How an operation ends when it does not succeed: an error returned to its caller, or a panic. */
module Failures {
  import PointClouds

  datatype Cause =
    | MissingColumn(column: PointClouds.Dim)   // the data frame has no such column
    | NullValue                                // a null entry where a value is unwrapped
    | NoIds                                    // the cloud has no id to take the minimum or maximum of
    | DivisionByZero                           // an integer or SQL division by zero
    | IntegerOutOfRange                        // a value outside the range of an `int4` column
    | InvalidPolygonCast                       // a dumped geometry that is not a 3D polygon
    | StatementRefused                         // the database refuses to execute a statement

  datatype Failure =
    | Error(cause: Cause)   // an `Err` propagated with `?`
    | Panic(cause: Cause)   // an `unwrap`, an `expect` or a panicking arithmetic operation
}
