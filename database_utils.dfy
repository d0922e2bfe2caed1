/**
 * database_utils.rs: the statement that uploads one patch (`insert_point_cloud`) and the
 * reconstruction of a point cloud from downloaded rows (`derive_point_cloud`).
 */
module DatabaseUtils {
  import opened Wrappers
  import opened PointClouds
  import opened Failures
  import Text
  import Models

  // ---------------------------------------------------------------------------------------------
  // insert_point_cloud

  /** The text before the value list: the insert statement up to `ARRAY[`. */
  const InsertPrefix: string := "INSERT INTO sensor_data.point_cloud_upload (pa)\n    SELECT PC_MakePatch(1, ARRAY["

  /** The text after the value list. */
  const InsertSuffix: string := "]);"

  /** Columns fetched with `?`: a missing one is an error returned to the caller, in this order. */
  const CheckedDims: seq<Dim> := [Id, TimestampSec, TimestampNanosec, Intensity,
                                  BeamOriginX, BeamOriginY, BeamOriginZ]

  /** Columns fetched with `unwrap`: a missing one is a panic. */
  const UnwrappedDims: seq<Dim> := [RosMessageId, RosPointId]

  /** The first attribute of `dims` that the cloud has no column for. */
  function FirstMissing(dims: seq<Dim>, present: set<Dim>): (r: Option<Dim>)
    ensures r.None? <==> forall k :: 0 <= k < |dims| ==> dims[k] in present
    ensures r.Some? ==> exists k :: 0 <= k < |dims| && dims[k] == r.value && r.value !in present &&
                          forall j :: 0 <= j < k ==> dims[j] in present
  {
    if dims == [] then None
    else if dims[0] !in present then Some(dims[0])
    else
      var r := FirstMissing(dims[1..], present);
      if r.Some? then
        var k :| 0 <= k < |dims[1..]| && dims[1..][k] == r.value && r.value !in present &&
                 forall j :: 0 <= j < k ==> dims[1..][j] in present;
        assert dims[k + 1] == r.value;
        r
      else r
  }

  /** True when every one of the twelve attributes of row `p` has a value. */
  predicate Complete(p: PointRow)
  {
    forall k :: 0 <= k < |PatchDims| ==> Field(p, PatchDims[k]).Some?
  }

  /** The twelve values of a complete row, in statement order. */
  function Values(p: PointRow): (v: seq<Value>)
    requires Complete(p)
    ensures |v| == 12 && forall k :: 0 <= k < 12 ==> Some(v[k]) == Field(p, PatchDims[k])
  {
    seq(12, k requires 0 <= k < 12 => Field(p, PatchDims[k]).value)
  }

  /** One point's text: its twelve rendered values separated by ", ". */
  function Entry(p: PointRow, render: Value -> string): string
    requires Complete(p)
  {
    Text.Join(RenderedValues(p, render))
  }

  function RenderedValues(p: PointRow, render: Value -> string): (r: seq<string>)
    requires Complete(p)
    ensures |r| == 12
  {
    var v := Values(p);
    seq(12, k requires 0 <= k < 12 => render(v[k]))
  }

  /** True when `insert_point_cloud` returns a statement rather than an error or a panic. */
  predicate Insertable(pc: PointCloud)
  {
    && (forall k :: 0 <= k < |CheckedDims| ==> CheckedDims[k] in pc.optional)
    && (forall k :: 0 <= k < |UnwrappedDims| ==> UnwrappedDims[k] in pc.optional)
    && (forall i :: 0 <= i < |pc.rows| ==> Complete(pc.rows[i]))
  }

  /** The points' texts, in row order. */
  function Entries(pc: PointCloud, render: Value -> string): (r: seq<string>)
    requires forall i :: 0 <= i < |pc.rows| ==> Complete(pc.rows[i])
    ensures |r| == |pc.rows|
  {
    seq(|pc.rows|, i requires 0 <= i < |pc.rows| => Entry(pc.rows[i], render))
  }

  /** `insert_point_cloud`: the statements that upload the cloud as one patch. */
  function InsertPointCloud(pc: PointCloud, render: Value -> string): (r: Result<seq<string>, Failure>)
    ensures r.Success? <==> Insertable(pc)
    ensures r.Success? ==> |r.value| == 1 && r.value[0] == InsertPrefix + Text.Join(Entries(pc, render)) + InsertSuffix
    ensures r.Failure? && r.error.Error? ==>
              exists k :: 0 <= k < |CheckedDims| && r.error == Error(MissingColumn(CheckedDims[k])) &&
                CheckedDims[k] !in pc.optional && forall j :: 0 <= j < k ==> CheckedDims[j] in pc.optional
    ensures r.Failure? ==> (r.error.Error? <==> exists k :: 0 <= k < |CheckedDims| && CheckedDims[k] !in pc.optional)
  {
    match FirstMissing(CheckedDims, pc.optional)
    case Some(d) => Failure(Error(MissingColumn(d)))
    case None =>
      match FirstMissing(UnwrappedDims, pc.optional)
      case Some(d) => Failure(Panic(MissingColumn(d)))
      case None =>
        if exists i :: 0 <= i < |pc.rows| && !Complete(pc.rows[i]) then Failure(Panic(NullValue))
        else Success([InsertPrefix + Text.Join(Entries(pc, render)) + InsertSuffix])
  }

  /** A cloud without points gives a statement with an empty, untyped `ARRAY[]`. */
  lemma EmptyCloudStatement(pc: PointCloud, render: Value -> string)
    requires Insertable(pc) && pc.rows == []
    ensures InsertPointCloud(pc, render) == Success([InsertPrefix + InsertSuffix])
    ensures InsertPrefix + InsertSuffix == "INSERT INTO sensor_data.point_cloud_upload (pa)\n    SELECT PC_MakePatch(1, ARRAY[]);"
  {
    assert Entries(pc, render) == [];
    assert InsertPrefix + Text.Join([]) + InsertSuffix == InsertPrefix + InsertSuffix;
  }

  /** Each point's text splits into its twelve values, in the order x, y, z, id, the timestamp's
      seconds and nanoseconds, intensity, the beam origin's x, y, z, the message id and the point id. */
  lemma EntryFieldOrder(p: PointRow, render: Value -> string)
    requires Complete(p)
    requires forall k :: 0 <= k < 12 ==> !Text.ContainsSeparator(render(Field(p, PatchDims[k]).value))
    ensures Text.Split(Entry(p, render)) == RenderedValues(p, render)
    ensures forall k :: 0 <= k < 12 ==> RenderedValues(p, render)[k] == render(Field(p, PatchDims[k]).value)
  {
    Text.SplitJoin(RenderedValues(p, render));
  }

  /** The flat list of all rendered values: twelve per point, points in row order. */
  function FlatValues(pc: PointCloud, render: Value -> string): seq<string>
    requires forall i :: 0 <= i < |pc.rows| ==> Complete(pc.rows[i])
  {
    Text.Concat(seq(|pc.rows|, i requires 0 <= i < |pc.rows| => RenderedValues(pc.rows[i], render)))
  }

  /**
   * The round trip of the value list: splitting the array text of the statement on ", " gives back
   * the 12·n rendered values in order, value `k` of point `i` at position 12·i + k, provided the cloud
   * has a point and no rendered value contains ", ".
   */
  lemma {:induction false} StatementSplitsIntoValues(pc: PointCloud, render: Value -> string, i: nat, k: nat)
    requires Insertable(pc) && pc.rows != []
    requires forall j, d :: 0 <= j < |pc.rows| && 0 <= d < 12 ==>
               !Text.ContainsSeparator(render(Field(pc.rows[j], PatchDims[d]).value))
    requires i < |pc.rows| && k < 12
    ensures var stmt := InsertPointCloud(pc, render).value[0];
            var merged := stmt[|InsertPrefix|..|stmt| - |InsertSuffix|];
            && stmt == InsertPrefix + merged + InsertSuffix
            && Text.Split(merged) == FlatValues(pc, render)
            && |FlatValues(pc, render)| == 12 * |pc.rows|
            && FlatValues(pc, render)[12 * i + k] == render(Field(pc.rows[i], PatchDims[k]).value)
  {
    var groups := seq(|pc.rows|, j requires 0 <= j < |pc.rows| => RenderedValues(pc.rows[j], render));
    var entries := Entries(pc, render);
    Text.JoinConcat(groups, entries);
    var flat := Text.Concat(groups);
    Text.ConcatAt(groups, 12, i, k);
    assert 12 * i + k == i * 12 + k;
    forall n | 0 <= n < |flat| ensures !Text.ContainsSeparator(flat[n]) {
      var j := n / 12;
      var d := n % 12;
      Text.ConcatAt(groups, 12, j, d);
      assert j * 12 + d == n;
    }
    assert |flat| == 12 * |pc.rows| by {
      Text.ConcatUniformLength(groups, 12);
    }
    Text.SplitJoin(flat);
    var stmt := InsertPrefix + Text.Join(entries) + InsertSuffix;
    assert stmt[|InsertPrefix|..|stmt| - |InsertSuffix|] == Text.Join(entries);
  }

  /** The twelve values of a stored patch point, in statement order. */
  function PatchPointValues(q: Models.PatchPoint): seq<Value>
  {
    [Float(q.x), Float(q.y), Float(q.z), Integer(q.id), Integer(q.timestampSec), Integer(q.timestampNanosec),
     Float(q.intensity), Float(q.beamOriginX), Float(q.beamOriginY), Float(q.beamOriginZ),
     Integer(q.rosMessageId), Integer(q.rosPointId)]
  }

  /** The point the patch stores for a complete row: it holds exactly the values the statement lists. */
  function PatchPointOf(p: PointRow): (q: Models.PatchPoint)
    requires Complete(p)
    ensures PatchPointValues(q) == Values(p)
  {
    assert Field(p, PatchDims[0]).Some? && Field(p, PatchDims[1]).Some? && Field(p, PatchDims[2]).Some?;
    assert Field(p, PatchDims[3]).Some? && Field(p, PatchDims[4]).Some? && Field(p, PatchDims[5]).Some?;
    assert Field(p, PatchDims[6]).Some? && Field(p, PatchDims[7]).Some? && Field(p, PatchDims[8]).Some?;
    assert Field(p, PatchDims[9]).Some? && Field(p, PatchDims[10]).Some? && Field(p, PatchDims[11]).Some?;
    Models.PatchPoint(p.x.value, p.y.value, p.z.value, p.id.value, p.timestampSec.value, p.timestampNanosec.value,
                      p.intensity.value, p.beamOriginX.value, p.beamOriginY.value, p.beamOriginZ.value,
                      p.rosMessageId.value, p.rosPointId.value)
  }

  /** The points of the patch the statement of an insertable cloud creates, in row order. */
  function PatchPoints(pc: PointCloud): (r: seq<Models.PatchPoint>)
    requires forall i :: 0 <= i < |pc.rows| ==> Complete(pc.rows[i])
    ensures |r| == |pc.rows|
    ensures forall i :: 0 <= i < |r| ==> PatchPointValues(r[i]) == Values(pc.rows[i])
  {
    seq(|pc.rows|, i requires 0 <= i < |pc.rows| => PatchPointOf(pc.rows[i]))
  }

  // ---------------------------------------------------------------------------------------------
  // derive_point_cloud

  /** The columns of a reconstructed cloud. */
  datatype OutColumn =
    | OutX | OutY | OutZ | OutId | OutTimestampSec | OutTimestampNanosec | OutIntensity
    | OutBeamOriginX | OutBeamOriginY | OutBeamOriginZ | OutBeamLength | OutRosPointId | OutRosMessageId
    | OutGmlId | OutGmlName | OutClassname | OutSurfaceDistance | OutIntersectionAngle

  /** The order of the reconstructed columns. */
  const DerivedColumns: seq<OutColumn> := [
    OutX, OutY, OutZ, OutId, OutTimestampSec, OutTimestampNanosec, OutIntensity,
    OutBeamOriginX, OutBeamOriginY, OutBeamOriginZ, OutBeamLength, OutRosPointId, OutRosMessageId,
    OutGmlId, OutGmlName, OutClassname, OutSurfaceDistance, OutIntersectionAngle]

  /** An entry of a reconstructed column; `NaN` is the float NaN that stands for a null. */
  datatype Cell = FloatCell(r: real) | IntegerCell(i: int) | TextCell(s: string) | NaN

  datatype Series = Series(name: OutColumn, cells: seq<Cell>)

  /** Rust's `as u64` on an `i32`: two's complement reinterpretation. */
  function AsU64(i: int): (r: nat)
    ensures r < 0x1_0000_0000_0000_0000 && (i - r) % 0x1_0000_0000_0000_0000 == 0
    ensures 0 <= i < 0x1_0000_0000_0000_0000 ==> r == i
  {
    i % 0x1_0000_0000_0000_0000
  }

  /** Rust's `as u32` on an `i32`. */
  function AsU32(i: int): (r: nat)
    ensures r < 0x1_0000_0000 && (i - r) % 0x1_0000_0000 == 0
    ensures 0 <= i < 0x1_0000_0000 ==> r == i
  {
    i % 0x1_0000_0000
  }

  function TextOrEmpty(o: Option<string>): string { o.GetOr("") }

  function FloatOrNaN(o: Option<real>): Cell
  {
    match o
    case Some(r) => FloatCell(r)
    case None => NaN
  }

  /** The entry a downloaded row gives column `c`, as the code is written. */
  function CellOf(c: OutColumn, e: Models.DownloadEntry): Cell
  {
    match c
    case OutX => FloatCell(e.x)
    case OutY => FloatCell(e.y)
    case OutZ => FloatCell(e.z)
    case OutId => IntegerCell(AsU64(e.pointId))
    case OutTimestampSec => IntegerCell(e.timestampSec)
    case OutTimestampNanosec => IntegerCell(AsU32(e.timestampNanosec))
    case OutIntensity => FloatCell(e.intensity)
    case OutBeamOriginX => FloatCell(e.x)
    case OutBeamOriginY => FloatCell(e.y)
    case OutBeamOriginZ => FloatCell(e.z)
    case OutBeamLength => FloatCell(e.beamLength)
    case OutRosPointId => IntegerCell(e.rosPointId)
    case OutRosMessageId => IntegerCell(e.rosMessageId)
    case OutGmlId => TextCell(TextOrEmpty(e.gmlId))
    case OutGmlName => TextCell(TextOrEmpty(e.gmlName))
    case OutClassname => TextCell(TextOrEmpty(e.classname))
    case OutSurfaceDistance => FloatOrNaN(e.surfaceDistance)
    case OutIntersectionAngle => FloatOrNaN(e.intersectionAngle)
  }

  /** `derive_point_cloud`: one column per output attribute, one entry per downloaded row. */
  function DerivePointCloud(rows: seq<Models.DownloadEntry>): (r: seq<Series>)
    ensures |r| == |DerivedColumns| == 18
    ensures forall k :: 0 <= k < |r| ==> r[k].name == DerivedColumns[k] && |r[k].cells| == |rows|
    ensures forall k, i :: 0 <= k < |r| && 0 <= i < |rows| ==> r[k].cells[i] == CellOf(DerivedColumns[k], rows[i])
  {
    seq(18, k requires 0 <= k < 18 =>
      Series(DerivedColumns[k], seq(|rows|, i requires 0 <= i < |rows| => CellOf(DerivedColumns[k], rows[i]))))
  }

  /** The data frame is accepted: no column name occurs twice. */
  lemma DerivedColumnsDistinct()
    ensures forall j, k :: 0 <= j < k < |DerivedColumns| ==> DerivedColumns[j] != DerivedColumns[k]
  {
  }

  /** The position of column `c` in the reconstructed cloud. */
  function IndexOf(c: OutColumn): (k: nat)
    ensures k < |DerivedColumns| && DerivedColumns[k] == c
  {
    match c
    case OutX => 0
    case OutY => 1
    case OutZ => 2
    case OutId => 3
    case OutTimestampSec => 4
    case OutTimestampNanosec => 5
    case OutIntensity => 6
    case OutBeamOriginX => 7
    case OutBeamOriginY => 8
    case OutBeamOriginZ => 9
    case OutBeamLength => 10
    case OutRosPointId => 11
    case OutRosMessageId => 12
    case OutGmlId => 13
    case OutGmlName => 14
    case OutClassname => 15
    case OutSurfaceDistance => 16
    case OutIntersectionAngle => 17
  }

  /** The entries of column `c` of a reconstructed cloud. */
  function ColumnOf(cols: seq<Series>, c: OutColumn): seq<Cell>
    requires |cols| == 18
  {
    cols[IndexOf(c)].cells
  }

  /** The spatial and identifying attributes survive the download: x, y, z and the point id of row
      `i` come back unchanged (the id as an unsigned 64-bit value). */
  lemma RoundTripCoordinates(rows: seq<Models.DownloadEntry>, i: nat)
    requires i < |rows| && 0 <= rows[i].pointId < 0x8000_0000
    ensures ColumnOf(DerivePointCloud(rows), OutX)[i] == FloatCell(rows[i].x)
    ensures ColumnOf(DerivePointCloud(rows), OutY)[i] == FloatCell(rows[i].y)
    ensures ColumnOf(DerivePointCloud(rows), OutZ)[i] == FloatCell(rows[i].z)
    ensures ColumnOf(DerivePointCloud(rows), OutId)[i] == IntegerCell(rows[i].pointId)
  {
  }

  /** Null feature metadata becomes the empty string; a null distance or angle becomes NaN. */
  lemma NullDefaults(rows: seq<Models.DownloadEntry>, i: nat)
    requires i < |rows|
    ensures rows[i].gmlId.None? ==> ColumnOf(DerivePointCloud(rows), OutGmlId)[i] == TextCell("")
    ensures rows[i].gmlName.None? ==> ColumnOf(DerivePointCloud(rows), OutGmlName)[i] == TextCell("")
    ensures rows[i].classname.None? ==> ColumnOf(DerivePointCloud(rows), OutClassname)[i] == TextCell("")
    ensures rows[i].surfaceDistance.None? <==> ColumnOf(DerivePointCloud(rows), OutSurfaceDistance)[i] == NaN
    ensures rows[i].intersectionAngle.None? <==> ColumnOf(DerivePointCloud(rows), OutIntersectionAngle)[i] == NaN
  {
  }

  /** As written, the beam origin columns repeat the reflection's x, y and z: a row whose beam origin
      differs from its reflection loses the origin. */
  lemma BeamOriginColumnsCopyReflection(rows: seq<Models.DownloadEntry>, i: nat)
    requires i < |rows|
    ensures ColumnOf(DerivePointCloud(rows), OutBeamOriginX)[i] == FloatCell(rows[i].x)
    ensures ColumnOf(DerivePointCloud(rows), OutBeamOriginY)[i] == FloatCell(rows[i].y)
    ensures ColumnOf(DerivePointCloud(rows), OutBeamOriginZ)[i] == FloatCell(rows[i].z)
    ensures rows[i].beamOriginX != rows[i].x ==>
              ColumnOf(DerivePointCloud(rows), OutBeamOriginX)[i] != FloatCell(rows[i].beamOriginX)
  {
  }

  /** The reconstruction with the beam origin columns taken from the row's beam origin. */
  function CorrectedCellOf(c: OutColumn, e: Models.DownloadEntry): Cell
  {
    match c
    case OutBeamOriginX => FloatCell(e.beamOriginX)
    case OutBeamOriginY => FloatCell(e.beamOriginY)
    case OutBeamOriginZ => FloatCell(e.beamOriginZ)
    case _ => CellOf(c, e)
  }

  function CorrectedDerivePointCloud(rows: seq<Models.DownloadEntry>): (r: seq<Series>)
    ensures |r| == 18
    ensures forall k :: 0 <= k < |r| ==> r[k].name == DerivedColumns[k] && |r[k].cells| == |rows|
  {
    seq(18, k requires 0 <= k < 18 =>
      Series(DerivedColumns[k], seq(|rows|, i requires 0 <= i < |rows| => CorrectedCellOf(DerivedColumns[k], rows[i]))))
  }

  /** The corrected reconstruction keeps the beam origin of every row and agrees with the written
      one on every other column. */
  lemma CorrectedKeepsBeamOrigin(rows: seq<Models.DownloadEntry>, i: nat)
    requires i < |rows|
    ensures ColumnOf(CorrectedDerivePointCloud(rows), OutBeamOriginX)[i] == FloatCell(rows[i].beamOriginX)
    ensures ColumnOf(CorrectedDerivePointCloud(rows), OutBeamOriginY)[i] == FloatCell(rows[i].beamOriginY)
    ensures ColumnOf(CorrectedDerivePointCloud(rows), OutBeamOriginZ)[i] == FloatCell(rows[i].beamOriginZ)
    ensures forall k :: 0 <= k < 18 && DerivedColumns[k] !in {OutBeamOriginX, OutBeamOriginY, OutBeamOriginZ} ==>
              CorrectedDerivePointCloud(rows)[k] == DerivePointCloud(rows)[k]
  {
  }
}
