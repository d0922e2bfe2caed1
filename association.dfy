/**
 * What `associate` and `download` do to the tables, patch by patch, as functions of the tables they
 * start from (database_manager.rs). The methods of `DatabaseManager` are proved to follow them.
 */
module Association {
  import opened Wrappers
  import opened Failures
  import opened Models
  import opened Seqs
  import DatabaseUtils
  import Relations
  import opened Store

  /** The ids `SELECT id FROM point_cloud_upload` returns, in table order. */
  function PatchIds(uploads: seq<UploadRow>): (r: seq<int>)
    ensures |r| == |uploads| && forall i :: 0 <= i < |uploads| ==> r[i] == uploads[i].id
  {
    seq(|uploads|, i requires 0 <= i < |uploads| => uploads[i].id)
  }

  /** Strictly increasing patch ids are distinct. */
  lemma IncreasingPatchIdsDistinct(uploads: seq<UploadRow>)
    requires forall i, j :: 0 <= i < j < |uploads| ==> uploads[i].id < uploads[j].id
    ensures NoDuplicates(PatchIds(uploads))
  {
  }

  // ---------------------------------------------------------------------------------------------
  // associate

  /** Every association row names a beam of the beam table. */
  predicate ReferencesBeams(t: Tables)
  {
    && (forall r :: r in t.associationPointModel ==> exists b :: b in t.beam && b.id == r.beamId)
    && (forall r :: r in t.associationBeamModel ==> exists b :: b in t.beam && b.id == r.beamId)
  }

  /** Every beam has an id below the next value of the beam sequence. */
  predicate BeamIdsBelow(t: Tables)
  {
    forall b :: b in t.beam ==> b.id < t.nextBeamId
  }

  /**
   * `associate_points` for one patch: the beam statement, then the point-model statement over the
   * beam table, then, when `intersect` holds, the beam-model statement over the exploded geometry.
   * A failing beam statement changes nothing and fails the spawned task.
   */
  function AssociateStep(t: Tables, patchId: int, city: CityModel, sp: Relations.Spatial, threshold: real,
                         intersect: bool): (r: Result<Tables, Failure>)
    ensures r.Failure? <==> Relations.BeamsOfPatch(sp, threshold, t.pointCloudUpload, patchId, t.nextBeamId).Failure?
    ensures r.Success? ==>
              && r.value.pointCloudUpload == t.pointCloudUpload && r.value.featureGeometryData == t.featureGeometryData
              && r.value.pointCloudDownload == t.pointCloudDownload
              && r.value.nextPatchId == t.nextPatchId && r.value.nextDownloadId == t.nextDownloadId
    ensures r.Success? && !intersect ==> r.value.associationBeamModel == t.associationBeamModel
  {
    var beams :- Relations.BeamsOfPatch(sp, threshold, t.pointCloudUpload, patchId, t.nextBeamId);
    var beam := t.beam + beams;
    var apm := Relations.PointModelRows(sp, threshold, beam, patchId, city.geometryData);
    Success(t.(beam := beam, nextBeamId := t.nextBeamId + |beams|,
               associationPointModel := t.associationPointModel + apm,
               associationBeamModel := if intersect then t.associationBeamModel + Relations.BeamModelRows(sp, beam, patchId, t.featureGeometryData)
                                       else t.associationBeamModel))
  }

  /** A patch's association fails exactly when some point of the patch gives no beam: a value outside int4 or
      a beam of length zero. */
  lemma AssociateStepFails(t: Tables, patchId: int, city: CityModel, sp: Relations.Spatial, threshold: real, intersect: bool)
    ensures var points := Relations.PatchPointsOf(t.pointCloudUpload, patchId);
            AssociateStep(t, patchId, city, sp, threshold, intersect).Failure? <==>
              exists k :: 0 <= k < |points| &&
                (!Relations.Int4Point(points[k]) ||
                 sp.pointDistance(Relations.OriginOf(points[k]), Relations.ReflectionOf(points[k])) == 0.0)
  {
    var points := Relations.PatchPointsOf(t.pointCloudUpload, patchId);
    var bs := Relations.BeamsOfPatch(sp, threshold, t.pointCloudUpload, patchId, t.nextBeamId);
    if bs.Failure? {
      var k :| 0 <= k < |points| && Relations.BeamOf(sp, threshold, patchId, t.nextBeamId + k, points[k]).Failure?;
    }
    if exists k :: 0 <= k < |points| &&
                (!Relations.Int4Point(points[k]) ||
                 sp.pointDistance(Relations.OriginOf(points[k]), Relations.ReflectionOf(points[k])) == 0.0) {
      var k :| 0 <= k < |points| &&
                (!Relations.Int4Point(points[k]) ||
                 sp.pointDistance(Relations.OriginOf(points[k]), Relations.ReflectionOf(points[k])) == 0.0);
      assert Relations.BeamOf(sp, threshold, patchId, t.nextBeamId + k, points[k]).Failure?;
    }
  }

  /** A task that succeeds appends the patch's beams, numbered on from the beam sequence, and
      advances the sequence past them. */
  lemma AssociateStepBeams(t: Tables, patchId: int, city: CityModel, sp: Relations.Spatial, threshold: real, intersect: bool)
    requires AssociateStep(t, patchId, city, sp, threshold, intersect).Success?
    ensures var u := AssociateStep(t, patchId, city, sp, threshold, intersect).value;
            var beams := Relations.BeamsOfPatch(sp, threshold, t.pointCloudUpload, patchId, t.nextBeamId);
            && beams.Success?
            && u.beam == t.beam + beams.value
            && u.nextBeamId == t.nextBeamId + |beams.value|
  {
  }

  /** A task keeps every beam id below the beam sequence. */
  lemma AssociateStepKeepsIdsBelow(t: Tables, patchId: int, city: CityModel, sp: Relations.Spatial, threshold: real, intersect: bool)
    requires AssociateStep(t, patchId, city, sp, threshold, intersect).Success?
    requires BeamIdsBelow(t)
    ensures BeamIdsBelow(AssociateStep(t, patchId, city, sp, threshold, intersect).value)
  {
    AssociateStepBeams(t, patchId, city, sp, threshold, intersect);
    NewBeams(sp, threshold, t, patchId, Relations.BeamsOfPatch(sp, threshold, t.pointCloudUpload, patchId, t.nextBeamId).value);
  }

  /** A task adds only associations to beams of the beam table. */
  lemma AssociateStepKeepsReferences(t: Tables, patchId: int, city: CityModel, sp: Relations.Spatial, threshold: real, intersect: bool)
    requires AssociateStep(t, patchId, city, sp, threshold, intersect).Success?
    requires ReferencesBeams(t)
    ensures ReferencesBeams(AssociateStep(t, patchId, city, sp, threshold, intersect).value)
  {
    var beams := Relations.BeamsOfPatch(sp, threshold, t.pointCloudUpload, patchId, t.nextBeamId).value;
    var beam := t.beam + beams;
    var apm := Relations.PointModelRows(sp, threshold, beam, patchId, city.geometryData);
    var abm := if intersect then Relations.BeamModelRows(sp, beam, patchId, t.featureGeometryData) else [];
    assert beam[..|t.beam|] == t.beam;
    assert t.associationBeamModel + [] == t.associationBeamModel;
    NewAssociationsReferenceBeams(sp, threshold, t, patchId, city, intersect, beam, apm, abm);
  }

  /** The beams a beam statement adds take the next ids: each below the advanced sequence. */
  lemma NewBeams(sp: Relations.Spatial, threshold: real, t: Tables, patchId: int, beams: seq<Beam>)
    requires Relations.BeamsOfPatch(sp, threshold, t.pointCloudUpload, patchId, t.nextBeamId) == Success(beams)
    ensures BeamIdsBelow(t) ==> forall b :: b in t.beam + beams ==> b.id < t.nextBeamId + |beams|
    ensures (t.beam + beams)[..|t.beam|] == t.beam
  {
    var points := Relations.PatchPointsOf(t.pointCloudUpload, patchId);
    assert forall k :: 0 <= k < |beams| ==> beams[k].id == t.nextBeamId + k by {
      forall k | 0 <= k < |beams| ensures beams[k].id == t.nextBeamId + k {
        assert Success(beams[k]) == Relations.BeamOf(sp, threshold, patchId, t.nextBeamId + k, points[k]);
      }
    }
  }

  lemma NewAssociationsReferenceBeams(sp: Relations.Spatial, threshold: real, t: Tables, patchId: int, city: CityModel,
                                      intersect: bool, beam: seq<Beam>, apm: seq<PointModelRow>, abm: seq<BeamModelRow>)
    requires ReferencesBeams(t)
    requires |t.beam| <= |beam| && beam[..|t.beam|] == t.beam
    requires apm == Relations.PointModelRows(sp, threshold, beam, patchId, city.geometryData)
    requires abm == if intersect then Relations.BeamModelRows(sp, beam, patchId, t.featureGeometryData) else []
    ensures forall r :: r in t.associationPointModel + apm ==> exists b :: b in beam && b.id == r.beamId
    ensures forall r :: r in t.associationBeamModel + abm ==> exists b :: b in beam && b.id == r.beamId
  {
    forall r | r in t.associationPointModel + apm ensures exists b :: b in beam && b.id == r.beamId {
      if r in t.associationPointModel {
        var b :| b in t.beam && b.id == r.beamId;
        var i :| 0 <= i < |t.beam| && t.beam[i] == b;
        assert beam[i] == b;
      } else {
        assert r in apm;
      }
    }
    forall r | r in t.associationBeamModel + abm ensures exists b :: b in beam && b.id == r.beamId {
      if r in t.associationBeamModel {
        var b :| b in t.beam && b.id == r.beamId;
        var i :| 0 <= i < |t.beam| && t.beam[i] == b;
        assert beam[i] == b;
      } else {
        assert r in abm;
      }
    }
  }

  /** The outcome of a run of tasks and the tables it leaves. */
  datatype Run = Run(tables: Tables, outcome: Outcome<Failure>)

  /** The associate tasks for `patchIds`, in order; the first task that fails ends the run and panics. */
  function AssociateAll(t: Tables, patchIds: seq<int>, city: CityModel, sp: Relations.Spatial, threshold: real,
                        intersect: bool): (r: Run)
    ensures r.tables.pointCloudUpload == t.pointCloudUpload && r.tables.featureGeometryData == t.featureGeometryData
    ensures r.tables.pointCloudDownload == t.pointCloudDownload
    ensures r.tables.nextPatchId == t.nextPatchId && r.tables.nextDownloadId == t.nextDownloadId
    ensures r.outcome.Fail? ==> r.outcome.error.Panic?
    decreases |patchIds|
  {
    if patchIds == [] then Run(t, Pass)
    else
      match AssociateStep(t, patchIds[0], city, sp, threshold, intersect)
      case Failure(e) => Run(t, Fail(InTask(e)))
      case Success(u) => AssociateAll(u, patchIds[1..], city, sp, threshold, intersect)
  }

  /** A run keeps every beam id below the beam sequence and every association pointing at a beam. */
  lemma {:induction false} AssociateAllKeeps(t: Tables, patchIds: seq<int>, city: CityModel, sp: Relations.Spatial,
                                             threshold: real, intersect: bool)
    ensures BeamIdsBelow(t) ==> BeamIdsBelow(AssociateAll(t, patchIds, city, sp, threshold, intersect).tables)
    ensures ReferencesBeams(t) ==> ReferencesBeams(AssociateAll(t, patchIds, city, sp, threshold, intersect).tables)
    decreases |patchIds|
  {
    if patchIds != [] {
      var s := AssociateStep(t, patchIds[0], city, sp, threshold, intersect);
      if s.Success? {
        if BeamIdsBelow(t) {
          AssociateStepKeepsIdsBelow(t, patchIds[0], city, sp, threshold, intersect);
        }
        if ReferencesBeams(t) {
          AssociateStepKeepsReferences(t, patchIds[0], city, sp, threshold, intersect);
        }
        AssociateAllKeeps(s.value, patchIds[1..], city, sp, threshold, intersect);
      }
    }
  }

  // ---------------------------------------------------------------------------------------------
  // download

  /** The rows of the download table for one patch, in table order. */
  function RowsOfPatch(table: seq<DownloadEntry>, patchId: int): (r: seq<DownloadEntry>)
    ensures forall e :: e in r <==> e in table && e.patchId == patchId
  {
    Filter(table, (e: DownloadEntry) => e.patchId == patchId)
  }

  /** The download table without the rows of one patch. */
  function RowsOfOtherPatches(table: seq<DownloadEntry>, patchId: int): (r: seq<DownloadEntry>)
    ensures forall e :: e in r <==> e in table && e.patchId != patchId
  {
    Filter(table, (e: DownloadEntry) => e.patchId != patchId)
  }

  /** Every download row has an id below the next value of the download sequence. */
  predicate DownloadIdsBelow(t: Tables)
  {
    forall e :: e in t.pointCloudDownload ==> e.id < t.nextDownloadId
  }

  /** The cloud the download of patch `patchId` writes to `{patchId}.xyz`. */
  datatype PatchFile = PatchFile(patchId: int, cloud: seq<DatabaseUtils.Series>)

  /** Every row the download statement inserts for a patch belongs to that patch. */
  lemma DownloadRowsOfPatch(t: Tables, patchId: int, city: CityModel)
    ensures forall e :: e in Relations.DownloadRows(t.beam, patchId, t.associationBeamModel, t.associationPointModel, city, t.nextDownloadId) ==>
              e.patchId == patchId
  {
    var meta := Relations.MetadataRows(city);
    var beams := Relations.OfPatch(t.beam, patchId);
    var g := (b: Beam) => Relations.DownloadRowsOfBeam(b, t.associationBeamModel, t.associationPointModel, meta);
    var rows := FlatMap(beams, g);
    var n := Relations.DownloadRows(t.beam, patchId, t.associationBeamModel, t.associationPointModel, city, t.nextDownloadId);
    forall e | e in n ensures e.patchId == patchId {
      var k :| 0 <= k < |n| && n[k] == e;
      FlatMapMember(beams, g, rows[k]);
      var i :| 0 <= i < |beams| && rows[k] in g(beams[i]);
      Relations.DownloadRowOfBeam(beams[i], t.associationBeamModel, t.associationPointModel, meta, rows[k]);
    }
  }

  /**
   * `download_associate_points` for one patch: insert its rows into point_cloud_download, load the
   * rows of the patch, delete them unless `keep`, and derive the cloud from the loaded rows.
   */
  function DownloadStep(t: Tables, patchId: int, city: CityModel, keep: bool): (r: (Tables, PatchFile))
    ensures r.1.patchId == patchId
    ensures r.0 == t.(pointCloudDownload := r.0.pointCloudDownload, nextDownloadId := r.0.nextDownloadId)
    ensures r.0.nextDownloadId >= t.nextDownloadId
  {
    var inserted := Relations.DownloadRows(t.beam, patchId, t.associationBeamModel, t.associationPointModel, city, t.nextDownloadId);
    var table := t.pointCloudDownload + inserted;
    var loaded := RowsOfPatch(table, patchId);
    var kept := if keep then table else RowsOfOtherPatches(table, patchId);
    (t.(pointCloudDownload := kept, nextDownloadId := t.nextDownloadId + |inserted|),
     PatchFile(patchId, DatabaseUtils.CorrectedDerivePointCloud(loaded)))
  }

  /**
   * What one download task leaves in the table and writes: the old rows and the patch's rows,
   * without the patch's rows unless `keep`; and, when the table held no row of the patch, the
   * cloud of exactly the rows just inserted.
   */
  lemma DownloadStepTable(t: Tables, patchId: int, city: CityModel, keep: bool)
    ensures var r := DownloadStep(t, patchId, city, keep);
            && (forall e :: e in r.0.pointCloudDownload ==> e in t.pointCloudDownload || e.patchId == patchId)
            && (!keep ==> r.0.pointCloudDownload == RowsOfOtherPatches(t.pointCloudDownload, patchId))
            && (keep ==> r.0.pointCloudDownload == t.pointCloudDownload + Relations.DownloadRows(t.beam, patchId, t.associationBeamModel, t.associationPointModel, city, t.nextDownloadId))
            && ((forall e :: e in t.pointCloudDownload ==> e.patchId != patchId) ==>
                  r.1.cloud == DatabaseUtils.CorrectedDerivePointCloud(
                                 Relations.DownloadRows(t.beam, patchId, t.associationBeamModel, t.associationPointModel, city, t.nextDownloadId)))
  {
    var inserted := Relations.DownloadRows(t.beam, patchId, t.associationBeamModel, t.associationPointModel, city, t.nextDownloadId);
    DownloadStepRows(t, patchId, city, inserted);
  }

  /** What the filters of one download task see: the inserted rows are all of the patch. */
  lemma DownloadStepRows(t: Tables, patchId: int, city: CityModel, inserted: seq<DownloadEntry>)
    requires inserted == Relations.DownloadRows(t.beam, patchId, t.associationBeamModel, t.associationPointModel, city, t.nextDownloadId)
    ensures RowsOfOtherPatches(t.pointCloudDownload + inserted, patchId) == RowsOfOtherPatches(t.pointCloudDownload, patchId)
    ensures (forall e :: e in t.pointCloudDownload ==> e.patchId != patchId) ==>
              RowsOfPatch(t.pointCloudDownload + inserted, patchId) == inserted
    ensures forall e :: e in RowsOfOtherPatches(t.pointCloudDownload, patchId) ==> e in t.pointCloudDownload
    ensures forall e :: e in t.pointCloudDownload + inserted ==> e in t.pointCloudDownload || e.patchId == patchId
  {
    DownloadRowsOfPatch(t, patchId, city);
    var other := (e: DownloadEntry) => e.patchId != patchId;
    var same := (e: DownloadEntry) => e.patchId == patchId;
    FilterAppend(t.pointCloudDownload, inserted, other);
    FilterNone(inserted, other);
    assert Filter(t.pointCloudDownload, other) + [] == Filter(t.pointCloudDownload, other);
    FilterAppend(t.pointCloudDownload, inserted, same);
    FilterAll(inserted, same);
    if forall e :: e in t.pointCloudDownload ==> e.patchId != patchId {
      FilterNone(t.pointCloudDownload, same);
    }
    forall e | e in RowsOfOtherPatches(t.pointCloudDownload, patchId) ensures e in t.pointCloudDownload {
      FilterMember(t.pointCloudDownload, other, e);
    }
  }

  /** The rows the download statement inserts take the next ids: each below the advanced sequence. */
  lemma NewDownloadRows(t: Tables, patchId: int, city: CityModel)
    requires DownloadIdsBelow(t)
    ensures var inserted := Relations.DownloadRows(t.beam, patchId, t.associationBeamModel, t.associationPointModel, city, t.nextDownloadId);
            forall e :: e in t.pointCloudDownload + inserted ==> e.id < t.nextDownloadId + |inserted|
  {
    var inserted := Relations.DownloadRows(t.beam, patchId, t.associationBeamModel, t.associationPointModel, city, t.nextDownloadId);
    forall e | e in t.pointCloudDownload + inserted ensures e.id < t.nextDownloadId + |inserted| {
      if e !in t.pointCloudDownload {
        var k :| 0 <= k < |inserted| && inserted[k] == e;
      }
    }
  }

  /** Deleting the rows of a patch keeps only rows already in the table. */
  lemma RowsOfOtherPatchesSubset(table: seq<DownloadEntry>, patchId: int)
    ensures forall e :: e in RowsOfOtherPatches(table, patchId) ==> e in table && e.patchId != patchId
  {
    forall e | e in RowsOfOtherPatches(table, patchId) ensures e in table && e.patchId != patchId {
      FilterMember(table, (e: DownloadEntry) => e.patchId != patchId, e);
    }
  }

  /** The download tasks for `patchIds`, in order, and the files they write. */
  function DownloadAll(t: Tables, patchIds: seq<int>, city: CityModel, keep: bool): (r: (Tables, seq<PatchFile>))
    ensures r.0 == t.(pointCloudDownload := r.0.pointCloudDownload, nextDownloadId := r.0.nextDownloadId)
    ensures |r.1| == |patchIds|
    decreases |patchIds|
  {
    if patchIds == [] then (t, [])
    else
      var (u, file) := DownloadStep(t, patchIds[0], city, keep);
      var (v, files) := DownloadAll(u, patchIds[1..], city, keep);
      (v, [file] + files)
  }

  /** One file per patch id, in the order of the ids. */
  lemma {:induction false} DownloadAllFiles(t: Tables, patchIds: seq<int>, city: CityModel, keep: bool)
    ensures var files := DownloadAll(t, patchIds, city, keep).1;
            forall k :: 0 <= k < |files| ==> files[k].patchId == patchIds[k]
    decreases |patchIds|
  {
    if patchIds != [] {
      var u := DownloadStep(t, patchIds[0], city, keep).0;
      DownloadAllFiles(u, patchIds[1..], city, keep);
    }
  }

  /** The download tasks after the first one start from the tables the first one leaves. */
  lemma DownloadAllFirst(t: Tables, patchIds: seq<int>, city: CityModel, keep: bool)
    requires patchIds != []
    ensures var first := DownloadStep(t, patchIds[0], city, keep);
            var rest := DownloadAll(first.0, patchIds[1..], city, keep);
            DownloadAll(t, patchIds, city, keep) == (rest.0, [first.1] + rest.1)
  {
  }

  /** One more download task done: the remaining tasks start from the tables it leaves, and its
      file follows those already written. */
  lemma DownloadAllNext(t: Tables, patchIds: seq<int>, city: CityModel, keep: bool, i: nat, files: seq<PatchFile>, before: Tables)
    requires i < |patchIds|
    requires DownloadAll(t, patchIds, city, keep).0 == DownloadAll(before, patchIds[i..], city, keep).0
    requires DownloadAll(t, patchIds, city, keep).1 == files + DownloadAll(before, patchIds[i..], city, keep).1
    ensures var step := DownloadStep(before, patchIds[i], city, keep);
            && DownloadAll(t, patchIds, city, keep).0 == DownloadAll(step.0, patchIds[i + 1..], city, keep).0
            && DownloadAll(t, patchIds, city, keep).1 == (files + [step.1]) + DownloadAll(step.0, patchIds[i + 1..], city, keep).1
  {
    var step := DownloadStep(before, patchIds[i], city, keep);
    var rest := DownloadAll(step.0, patchIds[i + 1..], city, keep);
    assert DownloadAll(before, patchIds[i..], city, keep) == (rest.0, [step.1] + rest.1) by {
      assert patchIds[i..][0] == patchIds[i] && patchIds[i..][1..] == patchIds[i + 1..];
      DownloadAllFirst(before, patchIds[i..], city, keep);
    }
    AppendAssociative(files, [step.1], rest.1);
  }

  /** Without `keep`, a download that starts from an empty table leaves it empty. */
  lemma {:induction false} DownloadLeavesNoRows(t: Tables, patchIds: seq<int>, city: CityModel)
    requires t.pointCloudDownload == []
    ensures DownloadAll(t, patchIds, city, false).0.pointCloudDownload == []
    decreases |patchIds|
  {
    if patchIds != [] {
      var u := DownloadStep(t, patchIds[0], city, false).0;
      DownloadStepTable(t, patchIds[0], city, false);
      FilterNone(t.pointCloudDownload, (e: DownloadEntry) => e.patchId != patchIds[0]);
      DownloadLeavesNoRows(u, patchIds[1..], city);
    }
  }

  /** The file's cloud is derived from exactly the rows the download statement inserts for its
      patch, whatever the download sequence stood at. */
  ghost predicate FromOwnRows(file: PatchFile, beams: seq<Beam>, abm: seq<BeamModelRow>, apm: seq<PointModelRow>, city: CityModel)
  {
    exists firstId :: file.cloud == DatabaseUtils.CorrectedDerivePointCloud(Relations.DownloadRows(beams, file.patchId, abm, apm, city, firstId))
  }

  /**
   * Each patch's file is derived from exactly the rows the download statement inserted for that
   * patch, with or without `keep`, as long as the patch ids are distinct and the table holds no row
   * of them to begin with.
   */
  lemma {:induction false} EachFileFromItsOwnRows(t: Tables, patchIds: seq<int>, city: CityModel, keep: bool, k: nat)
    requires NoDuplicates(patchIds) && k < |patchIds|
    requires forall e :: e in t.pointCloudDownload ==> e.patchId !in patchIds
    ensures FromOwnRows(DownloadAll(t, patchIds, city, keep).1[k], t.beam, t.associationBeamModel, t.associationPointModel, city)
    decreases |patchIds|
  {
    var (u, file) := DownloadStep(t, patchIds[0], city, keep);
    DownloadStepTable(t, patchIds[0], city, keep);
    if k == 0 {
      assert file.cloud == DatabaseUtils.CorrectedDerivePointCloud(
               Relations.DownloadRows(t.beam, patchIds[0], t.associationBeamModel, t.associationPointModel, city, t.nextDownloadId));
    } else {
      var rest := patchIds[1..];
      assert NoDuplicates(rest) by {
        forall i, j | 0 <= i < j < |rest| ensures rest[i] != rest[j] {
          assert rest[i] == patchIds[i + 1] && rest[j] == patchIds[j + 1];
        }
      }
      assert patchIds[0] !in rest by {
        forall j | 0 <= j < |rest| ensures rest[j] != patchIds[0] {
          assert rest[j] == patchIds[j + 1];
        }
      }
      assert forall x :: x in rest ==> x in patchIds;
      EachFileFromItsOwnRows(u, rest, city, keep, k - 1);
      assert rest[k - 1] == patchIds[k];
    }
  }

  /** A download from an empty table: each file from its own patch's rows, and without `keep` an
      empty table at the end. */
  lemma {:induction false} DownloadFromEmptyTable(t: Tables, patchIds: seq<int>, city: CityModel, keep: bool)
    requires t.pointCloudDownload == [] && NoDuplicates(patchIds)
    ensures var files := DownloadAll(t, patchIds, city, keep).1;
            forall k :: 0 <= k < |files| ==> FromOwnRows(files[k], t.beam, t.associationBeamModel, t.associationPointModel, city)
    ensures !keep ==> DownloadAll(t, patchIds, city, keep).0.pointCloudDownload == []
  {
    forall k | 0 <= k < |patchIds|
      ensures FromOwnRows(DownloadAll(t, patchIds, city, keep).1[k], t.beam, t.associationBeamModel, t.associationPointModel, city)
    {
      EachFileFromItsOwnRows(t, patchIds, city, keep, k);
    }
    if !keep {
      DownloadLeavesNoRows(t, patchIds, city);
    }
  }
}
