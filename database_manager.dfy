/**
 * The database manager of the analyzer: the schema's tables as fields of one object, and every
 * operation that changes them: cleaning the tables, uploading point clouds and rosbag windows as
 * patches, associating beams with the city model, and downloading the associated points.
 */
module Manager {
  import opened Wrappers
  import opened Failures
  import opened Models
  import opened PointClouds
  import Seqs
  import DatabaseUtils
  import Partitioning
  import Relations
  import opened Store
  import opened Association

  class DatabaseManager {
    var pointCloudUpload: seq<UploadRow>
    var beam: seq<Beam>
    var associationPointModel: seq<PointModelRow>
    var associationBeamModel: seq<BeamModelRow>
    var featureGeometryData: seq<FeatureGeometryRow>
    var pointCloudDownload: seq<DownloadEntry>
    var nextPatchId: int
    var nextBeamId: int
    var nextDownloadId: int

    function State(): Tables
      reads this
    {
      Tables(pointCloudUpload, beam, associationPointModel, associationBeamModel, featureGeometryData,
             pointCloudDownload, nextPatchId, nextBeamId, nextDownloadId)
    }

    /** Serial ids are below the next value of their sequence, and patch ids increase. */
    predicate Valid()
      reads this
    {
      && (forall i :: 0 <= i < |pointCloudUpload| ==> pointCloudUpload[i].id < nextPatchId)
      && (forall i, j :: 0 <= i < j < |pointCloudUpload| ==> pointCloudUpload[i].id < pointCloudUpload[j].id)
      && (forall b :: b in beam ==> b.id < nextBeamId)
      && (forall e :: e in pointCloudDownload ==> e.id < nextDownloadId)
    }

    /** A freshly created schema: empty tables, every sequence at 1. */
    constructor()
      ensures Valid()
      ensures State() == Tables([], [], [], [], [], [], 1, 1, 1)
    {
      pointCloudUpload, beam, associationPointModel, associationBeamModel := [], [], [], [];
      featureGeometryData, pointCloudDownload := [], [];
      nextPatchId, nextBeamId, nextDownloadId := 1, 1, 1;
    }

    /** `clean_download_tables`: empties point_cloud_download and nothing else. */
    method CleanDownloadTables()
      requires Valid()
      modifies this
      ensures Valid()
      ensures State() == old(State()).(pointCloudDownload := [])
    {
      pointCloudDownload := [];
    }

    /** `clean_association_tables`: empties feature_geometry_data, association_beam_model,
        association_point_model and beam, and nothing else. */
    method CleanAssociationTables()
      requires Valid()
      modifies this
      ensures Valid()
      ensures State() == old(State()).(featureGeometryData := [], associationBeamModel := [],
                                       associationPointModel := [], beam := [])
    {
      featureGeometryData := [];
      associationBeamModel := [];
      associationPointModel := [];
      beam := [];
    }

    /** `clean`: the download table, the association tables, then point_cloud_upload; only the
        sequences are kept. */
    method Clean()
      requires Valid()
      modifies this
      ensures Valid()
      ensures State() == Tables([], [], [], [], [], [], old(nextPatchId), old(nextBeamId), old(nextDownloadId))
    {
      CleanDownloadTables();
      CleanAssociationTables();
      pointCloudUpload := [];
    }

    /** Executing the statement `insert_point_cloud` made for an insertable cloud: one new patch
        holding the cloud's points, with the next patch id. */
    method InsertPatch(points: seq<PatchPoint>)
      requires Valid()
      modifies this
      ensures Valid()
      ensures State() == old(State()).(pointCloudUpload := old(pointCloudUpload) + [UploadRow(old(nextPatchId), points)],
                                       nextPatchId := old(nextPatchId) + 1)
    {
      pointCloudUpload := pointCloudUpload + [UploadRow(nextPatchId, points)];
      nextPatchId := nextPatchId + 1;
    }


    /** `upload_point_cloud_direct`: the statement for the cloud, executed; the failures of
        `insert_point_cloud` and the database's refusal of an empty patch are returned. */
    method UploadPointCloudDirect(cloud: PointCloud, render: Value -> string) returns (outcome: Outcome<Failure>)
      requires Valid()
      modifies this
      ensures Valid()
      ensures outcome.Pass? <==> Uploadable(cloud)
      ensures outcome.Fail? ==> outcome.error == UploadError(cloud, render) && State() == old(State())
      ensures outcome.Pass? ==> State() == old(State()).(pointCloudUpload := old(pointCloudUpload) + [PatchRow(cloud, old(nextPatchId))],
                                                         nextPatchId := old(nextPatchId) + 1)
    {
      var statements := DatabaseUtils.InsertPointCloud(cloud, render);
      if statements.Failure? {
        return Fail(statements.error);
      }
      if cloud.rows == [] {
        // `ARRAY[]` without a cast: the database refuses the statement
        return Fail(Error(StatementRefused));
      }
      // the single statement creates one patch of the cloud's points
      InsertPatch(PatchRow(cloud, nextPatchId).points);
      return Pass;
    }

    /** Each cloud uploaded as one patch, in order, each in its own task, until the first that fails. */
    method UploadEach(clouds: seq<PointCloud>, render: Value -> string) returns (outcome: Outcome<Failure>)
      requires Valid()
      modifies this
      ensures Valid()
      ensures State() == Uploaded(old(State()), clouds)
      ensures outcome.Pass? <==> Committed(clouds) == |clouds|
      ensures outcome.Fail? ==> Committed(clouds) < |clouds|
      ensures outcome.Fail? ==> outcome.error == InTask(UploadError(clouds[Committed(clouds)], render))
    {
      var k := 0;
      while k < |clouds|
        invariant 0 <= k <= Committed(clouds)
        invariant Valid()
        invariant State() == UploadedPrefix(old(State()), clouds, k)
      {
        var o := UploadPointCloudDirect(clouds[k], render);
        CommittedAt(clouds, k);
        if o.Fail? {
          return Fail(InTask(o.error));
        }
        UploadedNext(old(State()), clouds, k);
        k := k + 1;
      }
      return Pass;
    }

    /**
     * `upload_point_cloud`: sequential ids and zero columns, the id bounds, then one patch per range
     * of StepSize ids from `id_min` up to and including `id_max`, each in its own task, until the
     * first patch that fails.
     */
    method UploadPointCloud(cloud: PointCloud, render: Value -> string) returns (outcome: Outcome<Failure>)
      requires Valid()
      modifies this
      ensures Valid()
      ensures PlannedPatches(cloud).Failure? ==> outcome == Fail(Panic(NoIds)) && State() == old(State())
      ensures PlannedPatches(cloud).Success? ==>
                var patches := PlannedPatches(cloud).value;
                && State() == Uploaded(old(State()), patches)
                && (outcome.Pass? <==> Committed(patches) == |patches|)
                && (outcome.Fail? ==> Committed(patches) < |patches|)
                && (outcome.Fail? ==> outcome.error == InTask(UploadError(patches[Committed(patches)], render)))
    {
      var c := Prepared(cloud);
      var bounds := IdBounds(c);
      if bounds.Failure? {
        return Fail(bounds.error);
      }
      outcome := UploadIdRanges(c, bounds.value.0, bounds.value.1, render);
    }

    /** The loop of `upload_point_cloud`: the patch of every range from `idMin` while its first id
        is at most `idMax`. */
    method UploadIdRanges(c: PointCloud, idMin: int, idMax: int, render: Value -> string) returns (outcome: Outcome<Failure>)
      requires Valid()
      modifies this
      ensures Valid()
      ensures var patches := PatchesOf(c, idMin, idMax);
              && State() == Uploaded(old(State()), patches)
              && (outcome.Pass? <==> Committed(patches) == |patches|)
              && (outcome.Fail? ==> Committed(patches) < |patches|)
              && (outcome.Fail? ==> outcome.error == InTask(UploadError(patches[Committed(patches)], render)))
    {
      ghost var patches := PatchesOf(c, idMin, idMax);
      var current: int := idMin;
      ghost var k: nat := 0;
      while current <= idMax
        invariant current == PatchStart(idMin, k)
        invariant k <= |patches| && k <= Committed(patches)
        invariant Valid()
        invariant State() == UploadedPrefix(old(State()), patches, k)
        decreases idMax - current
      {
        var part := FilterByIdRange(c, current, current + Partitioning.StepSize - 1);
        PatchAtCurrent(c, idMin, idMax, k, current);
        var o := UploadPointCloudDirect(part, render);
        CommittedAt(patches, k);
        if o.Fail? {
          return Fail(InTask(o.error));
        }
        UploadedNext(old(State()), patches, k);
        current := current + Partitioning.StepSize;
        k := k + 1;
      }
      PatchOfAt(c, idMin, idMax, k);
      return Pass;
    }

    /**
     * `upload_rosbag` from the extracted clouds on: the step count and windows for the range, the
     * georeferenced cloud of each window from `extract`, then one patch per window, as it is,
     * until the first that fails.
     */
    method UploadRosbag(extract: Partitioning.Window -> PointCloud, startNs: int, stopNs: int, stepNs: int,
                        render: Value -> string) returns (outcome: Outcome<Failure>)
      requires Valid()
      modifies this
      ensures Valid()
      ensures Partitioning.StepWindows(startNs, stopNs, stepNs).Failure? ==>
                outcome == Fail(Panic(DivisionByZero)) && State() == old(State())
      ensures Partitioning.StepWindows(startNs, stopNs, stepNs).Success? ==>
                var clouds := Seqs.Map(Partitioning.StepWindows(startNs, stopNs, stepNs).value, extract);
                && State() == Uploaded(old(State()), clouds)
                && (outcome.Pass? <==> Committed(clouds) == |clouds|)
                && (outcome.Fail? ==> Committed(clouds) < |clouds|)
                && (outcome.Fail? ==> outcome.error == InTask(UploadError(clouds[Committed(clouds)], render)))
    {
      var windows := Partitioning.StepWindows(startNs, stopNs, stepNs);
      if windows.Failure? {
        return Fail(windows.error);
      }
      var clouds := Seqs.Map(windows.value, extract);
      outcome := UploadEach(clouds, render);
    }

    /** `explode_feature_geometry_data`: the surface parts of the city model, appended to
        feature_geometry_data; a failing cast inserts nothing. */
    method ExplodeFeatureGeometryData(city: CityModel, sp: Relations.Spatial) returns (outcome: Outcome<Failure>)
      requires Valid()
      modifies this
      ensures Valid()
      ensures var r := Relations.ExplodeFeatureGeometry(sp, city.geometryData);
              && (outcome.Pass? <==> r.Success?)
              && (r.Failure? ==> outcome == Fail(r.error) && State() == old(State()))
              && (r.Success? ==> State() == old(State()).(featureGeometryData := old(featureGeometryData) + r.value))
    {
      var rows := Relations.ExplodeFeatureGeometry(sp, city.geometryData);
      if rows.Failure? {
        return Fail(rows.error);
      }
      featureGeometryData := featureGeometryData + rows.value;
      return Pass;
    }

    /** The beam statement of `associate_points`: one beam per point of the patch, numbered on from
        the beam sequence; a point outside int4 or with a beam of length zero inserts nothing. */
    method InsertBeams(patchId: int, sp: Relations.Spatial, threshold: real) returns (outcome: Outcome<Failure>)
      requires Valid()
      modifies this
      ensures Valid()
      ensures var r := Relations.BeamsOfPatch(sp, threshold, old(pointCloudUpload), patchId, old(nextBeamId));
              && (r.Failure? ==> outcome == Fail(r.error) && State() == old(State()))
              && (r.Success? ==>
                    && outcome == Pass
                    && State() == old(State()).(beam := old(beam) + r.value, nextBeamId := old(nextBeamId) + |r.value|))
    {
      var beams := Relations.BeamsOfPatch(sp, threshold, pointCloudUpload, patchId, nextBeamId);
      if beams.Failure? {
        return Fail(beams.error);
      }
      NewBeams(sp, threshold, State(), patchId, beams.value);
      beam, nextBeamId := beam + beams.value, nextBeamId + |beams.value|;
      return Pass;
    }

    /** The point-model statement of `associate_points`: the associations of the patch's beams
        with the city model's geometries within `threshold`. */
    method InsertPointModelAssociations(patchId: int, city: CityModel, sp: Relations.Spatial, threshold: real)
      requires Valid()
      modifies this
      ensures Valid()
      ensures State() == old(State()).(associationPointModel := old(associationPointModel) +
                                         Relations.PointModelRows(sp, threshold, old(beam), patchId, city.geometryData))
    {
      associationPointModel := associationPointModel + Relations.PointModelRows(sp, threshold, beam, patchId, city.geometryData);
    }

    /** The beam-model statement of `associate_points`: the associations of the patch's beams with
        the exploded surfaces their reflection lines intersect. */
    method InsertBeamModelAssociations(patchId: int, sp: Relations.Spatial)
      requires Valid()
      modifies this
      ensures Valid()
      ensures State() == old(State()).(associationBeamModel := old(associationBeamModel) +
                                         Relations.BeamModelRows(sp, old(beam), patchId, old(featureGeometryData)))
    {
      associationBeamModel := associationBeamModel + Relations.BeamModelRows(sp, beam, patchId, featureGeometryData);
    }

    /**
     * `associate_points` for one patch: the beams of its points, then the point-model associations
     * of those beams, then, with `intersect`, their beam-model associations; a patch with a point
     * that gives no beam inserts nothing.
     */
    method AssociatePoints(patchId: int, city: CityModel, sp: Relations.Spatial, threshold: real, intersect: bool)
      returns (outcome: Outcome<Failure>)
      requires Valid()
      modifies this
      ensures Valid()
      ensures var r := AssociateStep(old(State()), patchId, city, sp, threshold, intersect);
              && (r.Failure? ==> outcome == Fail(r.error) && State() == old(State()))
              && (r.Success? ==> outcome == Pass && State() == r.value)
    {
      outcome := InsertBeams(patchId, sp, threshold);
      if outcome.Fail? {
        return;
      }
      InsertPointModelAssociations(patchId, city, sp, threshold);
      if intersect {
        InsertBeamModelAssociations(patchId, sp);
      }
    }

    /**
     * `associate`: empty the association tables, explode the city model's surfaces when
     * `intersect`, then associate every uploaded patch, in upload order, each in its own task,
     * until the first that fails. `keep` is accepted and not used.
     */
    method Associate(city: CityModel, sp: Relations.Spatial, threshold: real, intersect: bool, keep: bool)
      returns (outcome: Outcome<Failure>)
      requires Valid()
      modifies this
      ensures Valid()
      ensures ReferencesBeams(State())
      ensures var cleaned := old(State()).(featureGeometryData := [], associationBeamModel := [],
                                           associationPointModel := [], beam := []);
              var exploded := Relations.ExplodeFeatureGeometry(sp, city.geometryData);
              if intersect && exploded.Failure? then outcome == Fail(exploded.error) && State() == cleaned
              else
                var start := if intersect then cleaned.(featureGeometryData := exploded.value) else cleaned;
                var run := AssociateAll(start, PatchIds(old(pointCloudUpload)), city, sp, threshold, intersect);
                outcome == run.outcome && State() == run.tables
    {
      CleanAssociationTables();
      if intersect {
        var o := ExplodeFeatureGeometryData(city, sp);
        if o.Fail? {
          return o;
        }
        assert [] + Relations.ExplodeFeatureGeometry(sp, city.geometryData).value ==
               Relations.ExplodeFeatureGeometry(sp, city.geometryData).value;
      }
      outcome := AssociateEach(PatchIds(pointCloudUpload), city, sp, threshold, intersect);
    }

    /** The loop of `associate`: one association task per patch id, in order, until the first that
        fails. */
    method AssociateEach(patchIds: seq<int>, city: CityModel, sp: Relations.Spatial, threshold: real, intersect: bool)
      returns (outcome: Outcome<Failure>)
      requires Valid() && ReferencesBeams(State())
      modifies this
      ensures Valid() && ReferencesBeams(State())
      ensures var run := AssociateAll(old(State()), patchIds, city, sp, threshold, intersect);
              outcome == run.outcome && State() == run.tables
    {
      var i := 0;
      while i < |patchIds|
        invariant 0 <= i <= |patchIds|
        invariant Valid() && ReferencesBeams(State())
        invariant AssociateAll(old(State()), patchIds, city, sp, threshold, intersect) ==
                  AssociateAll(State(), patchIds[i..], city, sp, threshold, intersect)
      {
        ghost var before := State();
        assert patchIds[i..][0] == patchIds[i] && patchIds[i..][1..] == patchIds[i + 1..];
        var o := AssociatePoints(patchIds[i], city, sp, threshold, intersect);
        if o.Fail? {
          return Fail(InTask(o.error));
        }
        AssociateStepKeepsReferences(before, patchIds[i], city, sp, threshold, intersect);
        i := i + 1;
      }
      return Pass;
    }

    /** The insert statement of `download_associate_points`: the download rows of the patch,
        numbered on from the download sequence. */
    method InsertDownloadRows(patchId: int, city: CityModel)
      requires Valid()
      modifies this
      ensures Valid()
      ensures var inserted := Relations.DownloadRows(old(beam), patchId, old(associationBeamModel), old(associationPointModel), city, old(nextDownloadId));
              State() == old(State()).(pointCloudDownload := old(pointCloudDownload) + inserted,
                                       nextDownloadId := old(nextDownloadId) + |inserted|)
    {
      var inserted := Relations.DownloadRows(beam, patchId, associationBeamModel, associationPointModel, city, nextDownloadId);
      NewDownloadRows(State(), patchId, city);
      pointCloudDownload, nextDownloadId := pointCloudDownload + inserted, nextDownloadId + |inserted|;
    }

    /** The delete statement of `download_associate_points`: the rows of the patch go. */
    method DeleteDownloadRows(patchId: int)
      requires Valid()
      modifies this
      ensures Valid()
      ensures State() == old(State()).(pointCloudDownload := RowsOfOtherPatches(old(pointCloudDownload), patchId))
      ensures forall e :: e in pointCloudDownload ==> e.patchId != patchId
    {
      RowsOfOtherPatchesSubset(pointCloudDownload, patchId);
      pointCloudDownload := RowsOfOtherPatches(pointCloudDownload, patchId);
    }

    /**
     * `download_associate_points` for one patch: insert its download rows, load the rows of the
     * patch, delete them unless `keep`, and derive the cloud written to `{patchId}.xyz`.
     */
    method DownloadAssociatePoints(patchId: int, city: CityModel, keep: bool) returns (file: PatchFile)
      requires Valid()
      modifies this
      ensures Valid()
      ensures State() == DownloadStep(old(State()), patchId, city, keep).0
      ensures file == DownloadStep(old(State()), patchId, city, keep).1
    {
      ghost var t := State();
      InsertDownloadRows(patchId, city);
      var loaded := RowsOfPatch(pointCloudDownload, patchId);
      if !keep {
        DeleteDownloadRows(patchId);
      }
      file := PatchFile(patchId, DatabaseUtils.CorrectedDerivePointCloud(loaded));
      assert State() == DownloadStep(t, patchId, city, keep).0 by {
        assert State().pointCloudDownload == DownloadStep(t, patchId, city, keep).0.pointCloudDownload;
      }
    }

    /**
     * `download`: empty point_cloud_download, then one file per uploaded patch, in upload order.
     * Each file holds exactly the rows inserted for its own patch; without `keep` the table ends
     * empty.
     */
    method Download(city: CityModel, keep: bool) returns (files: seq<PatchFile>)
      requires Valid()
      modifies this
      ensures Valid()
      ensures var run := DownloadAll(old(State()).(pointCloudDownload := []), PatchIds(old(pointCloudUpload)), city, keep);
              State() == run.0 && files == run.1
      ensures |files| == |old(pointCloudUpload)|
      ensures forall k :: 0 <= k < |files| ==> files[k].patchId == old(pointCloudUpload)[k].id
      ensures forall k :: 0 <= k < |files| ==> FromOwnRows(files[k], old(beam), old(associationBeamModel), old(associationPointModel), city)
      ensures !keep ==> pointCloudDownload == []
    {
      CleanDownloadTables();
      ghost var start := State();
      files := DownloadEach(PatchIds(pointCloudUpload), city, keep);
      IncreasingPatchIdsDistinct(start.pointCloudUpload);
      DownloadAllFiles(start, PatchIds(start.pointCloudUpload), city, keep);
      DownloadFromEmptyTable(start, PatchIds(start.pointCloudUpload), city, keep);
    }

    /** The loop of `download`: one download task per patch id, in order. */
    method DownloadEach(patchIds: seq<int>, city: CityModel, keep: bool) returns (files: seq<PatchFile>)
      requires Valid()
      modifies this
      ensures Valid()
      ensures (State(), files) == DownloadAll(old(State()), patchIds, city, keep)
    {
      files := [];
      var i := 0;
      while i < |patchIds|
        invariant 0 <= i <= |patchIds|
        invariant Valid()
        invariant DownloadAll(old(State()), patchIds, city, keep).0 == DownloadAll(State(), patchIds[i..], city, keep).0
        invariant DownloadAll(old(State()), patchIds, city, keep).1 == files + DownloadAll(State(), patchIds[i..], city, keep).1
      {
        ghost var before := State();
        var file := DownloadAssociatePoints(patchIds[i], city, keep);
        DownloadAllNext(old(State()), patchIds, city, keep, i, files, before);
        files := files + [file];
        i := i + 1;
      }
      assert patchIds[i..] == [];
      assert files + [] == files;
    }
  }
}
