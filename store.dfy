/**
 * The tables of the sensor_data schema as a value, and what the upload operations of
 * database_manager.rs put into point_cloud_upload: the patches a cloud is split into and the rows
 * an uploaded run of clouds leaves. Tables are sequences of rows in insertion order; the serial id
 * sequences are counters that TRUNCATE does not restart.
 */
module Store {
  import opened Wrappers
  import opened Failures
  import opened Models
  import opened PointClouds
  import Seqs
  import DatabaseUtils
  import Partitioning

  /** The contents of the tables and the next value of each serial id. */
  datatype Tables = Tables(
    pointCloudUpload: seq<UploadRow>, beam: seq<Beam>,
    associationPointModel: seq<PointModelRow>, associationBeamModel: seq<BeamModelRow>,
    featureGeometryData: seq<FeatureGeometryRow>, pointCloudDownload: seq<DownloadEntry>,
    nextPatchId: int, nextBeamId: int, nextDownloadId: int)

  /** A failure inside a spawned task: its `unwrap` turns it into a panic. */
  function InTask(f: Failure): (r: Failure)
    ensures r.Panic? && r.cause == f.cause
  {
    Panic(f.cause)
  }

  // ---------------------------------------------------------------------------------------------
  // The patches of upload_point_cloud

  /** The cloud `upload_point_cloud` partitions: sequential ids, then the eight zero columns. */
  function Prepared(cloud: PointCloud): PointCloud
  {
    ZeroFilled(AddSequentialId(cloud))
  }

  /** `get_id_min` and `get_id_max`, each `expect`ed: a cloud without ids panics. */
  function IdBounds(c: PointCloud): (r: Result<(nat, nat), Failure>)
    ensures r.Failure? <==> forall i :: 0 <= i < |c.rows| ==> c.rows[i].id.None?
    ensures r.Failure? ==> r.error == Panic(NoIds)
    ensures r.Success? ==> r.value.0 in Ids(c.rows) && r.value.1 in Ids(c.rows)
    ensures r.Success? ==> forall i :: 0 <= i < |c.rows| && c.rows[i].id.Some? ==> r.value.0 <= c.rows[i].id.value <= r.value.1
  {
    var ids := Ids(c.rows);
    if ids == [] then
      Failure(Panic(NoIds))
    else
      var lo, hi := Min(ids), Max(ids);
      assert forall i :: 0 <= i < |c.rows| && c.rows[i].id.Some? ==> lo <= c.rows[i].id.value <= hi by {
        forall i | 0 <= i < |c.rows| && c.rows[i].id.Some? ensures lo <= c.rows[i].id.value <= hi {
          var k :| 0 <= k < |ids| && ids[k] == c.rows[i].id.value;
        }
      }
      Success((lo, hi))
  }

  /** Row i of a prepared cloud has the id i. */
  lemma PreparedIds(cloud: PointCloud)
    ensures |Prepared(cloud).rows| == |cloud.rows|
    ensures forall i :: 0 <= i < |cloud.rows| ==> Prepared(cloud).rows[i].id == Some(i)
  {
  }

  /** A cloud whose row i has the id i, for n > 0 rows, has the id bounds 0 and n - 1. */
  lemma SequentialIdBounds(c: PointCloud)
    requires c.rows != [] && forall i :: 0 <= i < |c.rows| ==> c.rows[i].id == Some(i)
    ensures IdBounds(c) == Success((0, |c.rows| - 1))
  {
    var n := |c.rows|;
    var b := IdBounds(c);
    assert b.Success? by {
      assert c.rows[0].id.Some?;
    }
    assert b.value.0 == 0 by {
      assert c.rows[0].id.Some?;
    }
    assert b.value.1 == n - 1 by {
      assert c.rows[n - 1].id.Some?;
      var ids := Ids(c.rows);
      var k :| 0 <= k < |ids| && ids[k] == b.value.1;
      var i :| 0 <= i < |c.rows| && c.rows[i].id == Some(ids[k]);
    }
  }

  /** A prepared cloud of n points has the id bounds 0 and n - 1. */
  lemma PreparedIdBounds(cloud: PointCloud)
    requires cloud.rows != []
    ensures IdBounds(Prepared(cloud)) == Success((0, |cloud.rows| - 1))
  {
    PreparedIds(cloud);
    SequentialIdBounds(Prepared(cloud));
  }

  /** The first id of the k-th patch, counting from `lo` in steps of StepSize. */
  function PatchStart(lo: int, k: nat): int
  {
    lo + k * Partitioning.StepSize
  }

  /** The points of `c` in each range of `lo..=hi` (the corrected range). */
  function PatchesOf(c: PointCloud, lo: int, hi: int): seq<PointCloud>
  {
    Seqs.Map(Partitioning.InclusivePatchRanges(lo, hi), (r: Partitioning.IdRange) => FilterByIdRange(c, r.lo, r.hi))
  }

  /** The k-th patch: the points whose ids lie in the k-th range of StepSize ids from `lo`. */
  lemma PatchOfAt(c: PointCloud, lo: int, hi: int, k: nat)
    ensures k < |PatchesOf(c, lo, hi)| <==> PatchStart(lo, k) <= hi
    ensures k < |PatchesOf(c, lo, hi)| ==>
              PatchesOf(c, lo, hi)[k] == FilterByIdRange(c, PatchStart(lo, k), PatchStart(lo, k) + Partitioning.StepSize - 1)
  {
    Partitioning.InclusiveRangeIndex(lo, hi, k);
  }

  /** The patch the loop builds at `current`, k steps from `lo`, is the k-th of `PatchesOf`. */
  lemma PatchAtCurrent(c: PointCloud, lo: int, hi: int, k: nat, current: int)
    requires current == PatchStart(lo, k) && current <= hi
    ensures k < |PatchesOf(c, lo, hi)|
    ensures FilterByIdRange(c, current, current + Partitioning.StepSize - 1) == PatchesOf(c, lo, hi)[k]
  {
    PatchOfAt(c, lo, hi, k);
  }

  /** The points of `c` in each range of `lo..hi`, as the loop is written. */
  function PatchesAsWrittenOf(c: PointCloud, lo: int, hi: int): seq<PointCloud>
  {
    Seqs.Map(Partitioning.PatchRanges(lo, hi), (r: Partitioning.IdRange) => FilterByIdRange(c, r.lo, r.hi))
  }

  /** The patches the loop uploads, one per range of `id_min..=id_max`. */
  function PlannedPatches(cloud: PointCloud): Result<seq<PointCloud>, Failure>
  {
    var c := Prepared(cloud);
    var bounds :- IdBounds(c);
    Success(PatchesOf(c, bounds.0, bounds.1))
  }

  /** The patches as the loop is written, over `id_min..id_max`. */
  function PlannedPatchesAsWritten(cloud: PointCloud): Result<seq<PointCloud>, Failure>
  {
    var c := Prepared(cloud);
    var bounds :- IdBounds(c);
    Success(PatchesAsWrittenOf(c, bounds.0, bounds.1))
  }

  /** As written, a cloud of a single point is uploaded in no patch at all. */
  lemma AsWrittenSinglePointLost(cloud: PointCloud)
    requires |cloud.rows| == 1
    ensures PlannedPatchesAsWritten(cloud) == Success([])
  {
    PreparedIdBounds(cloud);
    Partitioning.PatchCount(0, 0);
  }

  /** As written, when n - 1 is a multiple of StepSize the last of the n points lies in no patch. */
  lemma AsWrittenLastPointLost(cloud: PointCloud, k: nat)
    requires |cloud.rows| >= 1 && (|cloud.rows| - 1) % Partitioning.StepSize == 0
    requires PlannedPatchesAsWritten(cloud).Success? && k < |PlannedPatchesAsWritten(cloud).value|
    ensures Prepared(cloud).rows[|cloud.rows| - 1] !in PlannedPatchesAsWritten(cloud).value[k].rows
  {
    var n := |cloud.rows|;
    PreparedIdBounds(cloud);
    PreparedIds(cloud);
    var c := Prepared(cloud);
    var ranges := Partitioning.PatchRanges(0, n - 1);
    Partitioning.PatchRangesCover(0, n - 1, n - 1);
    assert !(ranges[k].lo <= n - 1 <= ranges[k].hi);
    assert PatchesAsWrittenOf(c, 0, n - 1)[k] == FilterByIdRange(c, ranges[k].lo, ranges[k].hi);
  }

  /** An id lies in the k-th range of StepSize ids from 0 exactly when k is its quotient by StepSize. */
  lemma RangeOfId(i: nat, k: nat)
    ensures PatchStart(0, k) <= i <= PatchStart(0, k) + Partitioning.StepSize - 1 <==> k == i / Partitioning.StepSize
  {
  }

  /** The patch of the k-th range from 0 holds point p exactly when k is the quotient of p's id. */
  lemma InPatchOfRange(c: PointCloud, hi: int, k: nat, p: PointRow, i: nat)
    requires PatchStart(0, k) <= hi && p.id == Some(i)
    ensures k < |PatchesOf(c, 0, hi)|
    ensures p in PatchesOf(c, 0, hi)[k].rows <==> p in c.rows && k == i / Partitioning.StepSize
  {
    PatchOfAt(c, 0, hi, k);
    RangeOfId(i, k);
  }

  /** In a cloud whose row i has the id i, row i is in the patch its id's quotient by StepSize
      numbers and in no other. */
  lemma SequentialPointInOnePatch(c: PointCloud, i: nat)
    requires i < |c.rows| && forall j :: 0 <= j < |c.rows| ==> c.rows[j].id == Some(j)
    ensures var patches := PatchesOf(c, 0, |c.rows| - 1);
            && i / Partitioning.StepSize < |patches|
            && c.rows[i] in patches[i / Partitioning.StepSize].rows
            && forall j :: 0 <= j < |patches| && j != i / Partitioning.StepSize ==> c.rows[i] !in patches[j].rows
  {
    var n := |c.rows|;
    var patches := PatchesOf(c, 0, n - 1);
    var k := i / Partitioning.StepSize;
    var p := c.rows[i];
    assert PatchStart(0, k) <= n - 1 by {
      RangeOfId(i, k);
    }
    InPatchOfRange(c, n - 1, k, p, i);
    forall j | 0 <= j < |patches| && j != k ensures p !in patches[j].rows {
      PatchOfAt(c, 0, n - 1, j);
      InPatchOfRange(c, n - 1, j, p, i);
    }
  }

  /** The corrected loop puts every point of the cloud in exactly one patch: the one its id's
      quotient by StepSize numbers. */
  lemma EveryPointInOnePatch(cloud: PointCloud, i: nat)
    requires i < |cloud.rows|
    ensures PlannedPatches(cloud).Success?
    ensures var patches := PlannedPatches(cloud).value;
            && i / Partitioning.StepSize < |patches|
            && Prepared(cloud).rows[i] in patches[i / Partitioning.StepSize].rows
            && forall j :: 0 <= j < |patches| && j != i / Partitioning.StepSize ==> Prepared(cloud).rows[i] !in patches[j].rows
  {
    PlannedPatchesOfPrepared(cloud);
    PreparedIds(cloud);
    SequentialPointInOnePatch(Prepared(cloud), i);
  }

  /** The planned patches of a non-empty cloud are those of its prepared cloud over `0..=n-1`. */
  lemma PlannedPatchesOfPrepared(cloud: PointCloud)
    requires cloud.rows != []
    ensures PlannedPatches(cloud) == Success(PatchesOf(Prepared(cloud), 0, |cloud.rows| - 1))
  {
    PreparedIdBounds(cloud);
  }

  // ---------------------------------------------------------------------------------------------
  // Uploaded patch rows

  /**
   * True when `upload_point_cloud_direct` stores the cloud: `insert_point_cloud` gives a statement,
   * and the database executes it. A cloud without points gives `ARRAY[]` in the statement, an empty
   * array without a type cast, whose element type PostgreSQL cannot determine, so it refuses the
   * statement.
   */
  predicate Uploadable(cloud: PointCloud)
  {
    DatabaseUtils.Insertable(cloud) && cloud.rows != []
  }

  /** The failure `upload_point_cloud_direct` returns for a cloud it does not store: the error or
      panic of `insert_point_cloud`, or the database's refusal propagated by `?`. */
  function UploadError(cloud: PointCloud, render: Value -> string): (f: Failure)
    requires !Uploadable(cloud)
    ensures !DatabaseUtils.Insertable(cloud) ==> f == DatabaseUtils.InsertPointCloud(cloud, render).error
    ensures DatabaseUtils.Insertable(cloud) ==> cloud.rows == [] && f == Error(StatementRefused)
  {
    var statements := DatabaseUtils.InsertPointCloud(cloud, render);
    if statements.Failure? then statements.error else Error(StatementRefused)
  }

  /** The length of the longest prefix of `clouds` that `upload_point_cloud_direct` stores. */
  function Committed(clouds: seq<PointCloud>): (n: nat)
    ensures UploadablePrefix(clouds, n)
    ensures n < |clouds| ==> !Uploadable(clouds[n])
  {
    if clouds == [] || !Uploadable(clouds[0]) then 0 else 1 + Committed(clouds[1..])
  }

  /** An upload loop that has committed k clouds and meets cloud k: the next uploadable cloud
      extends the committed prefix, the first refused one ends it. */
  lemma CommittedAt(clouds: seq<PointCloud>, k: nat)
    requires k <= Committed(clouds) && k < |clouds|
    ensures Uploadable(clouds[k]) ==> k + 1 <= Committed(clouds)
    ensures !Uploadable(clouds[k]) ==> k == Committed(clouds)
  {
  }

  /** The patch row an insertable cloud is stored as. */
  function PatchRow(cloud: PointCloud, id: int): (r: UploadRow)
    requires DatabaseUtils.Insertable(cloud)
    ensures r.id == id && |r.points| == |cloud.rows|
    ensures forall i :: 0 <= i < |cloud.rows| ==> DatabaseUtils.PatchPointValues(r.points[i]) == DatabaseUtils.Values(cloud.rows[i])
  {
    UploadRow(id, DatabaseUtils.PatchPoints(cloud))
  }

  /** The first n clouds are all uploadable. */
  predicate UploadablePrefix(clouds: seq<PointCloud>, n: nat)
  {
    n <= |clouds| && forall k :: 0 <= k < n ==> Uploadable(clouds[k])
  }

  /** The rows of the first n clouds, with serial ids from `firstId`. */
  function PatchRows(clouds: seq<PointCloud>, n: nat, firstId: int): (r: seq<UploadRow>)
    requires UploadablePrefix(clouds, n)
    ensures |r| == n
    ensures forall k :: 0 <= k < n ==> r[k] == PatchRow(clouds[k], firstId + k)
  {
    seq(n, k requires 0 <= k < n => PatchRow(clouds[k], firstId + k))
  }

  /** The tables after the first n clouds were uploaded, one patch each. */
  function UploadedPrefix(t: Tables, clouds: seq<PointCloud>, n: nat): Tables
    requires UploadablePrefix(clouds, n)
  {
    t.(pointCloudUpload := t.pointCloudUpload + PatchRows(clouds, n, t.nextPatchId), nextPatchId := t.nextPatchId + n)
  }

  /** Uploading the next cloud appends its row, with the next patch id, to the prefix's tables. */
  lemma UploadedNext(t: Tables, clouds: seq<PointCloud>, n: nat)
    requires UploadablePrefix(clouds, n + 1)
    ensures var u := UploadedPrefix(t, clouds, n);
            UploadedPrefix(t, clouds, n + 1) ==
              u.(pointCloudUpload := u.pointCloudUpload + [PatchRow(clouds[n], u.nextPatchId)], nextPatchId := u.nextPatchId + 1)
  {
    PatchRowsNext(clouds, n, t.nextPatchId);
  }

  lemma PatchRowsNext(clouds: seq<PointCloud>, n: nat, firstId: int)
    requires UploadablePrefix(clouds, n + 1)
    ensures PatchRows(clouds, n + 1, firstId) == PatchRows(clouds, n, firstId) + [PatchRow(clouds[n], firstId + n)]
  {
    assert PatchRows(clouds, n + 1, firstId)[n] == PatchRow(clouds[n], firstId + n);
  }

  /** The tables after the first `Committed(clouds)` clouds were uploaded: the clouds up to the
      first one that is not stored. */
  function Uploaded(t: Tables, clouds: seq<PointCloud>): Tables
  {
    UploadedPrefix(t, clouds, Committed(clouds))
  }
}
