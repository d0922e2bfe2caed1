# sensor-data-analyzer, modelled in Dafny

This project models the core of sensor-data-analyzer. The tool uploads LiDAR point clouds, taken from
rosbag recordings or from files, into a PostgreSQL/PostGIS database as pgPointCloud patches. It splits
each patch into beams, associates each beam with the features of a CityGML city model, and downloads
the associated points as one cloud per patch. The model covers the following parts:

- **The database manager** (`Manager.DatabaseManager`, in `database_manager.dfy`). The six tables of
  the `sensor_data` schema are `seq` fields of one class, with the `patch`, `beam` and download serial
  sequences beside them. Every operation is a method. `clean*` empties tables. `upload_point_cloud`
  and `upload_rosbag` append patches. `associate` runs an association task per patch, and `download`
  runs a download task per patch. Each method is proved against a specification function over
  `Store.Tables`, such as `AssociateStep`, `AssociateAll`, `DownloadStep`, `DownloadAll` and `Uploaded`.
- **The SQL `INSERT … SELECT` statements** (`Relations`). Each statement is a pure function over table
  contents. Joins are sequences, so LEFT JOIN multiplicities can be counted. `DISTINCT` keeps first
  occurrences. PostGIS and pgPointCloud functions are fields of a `Spatial` value of uninterpreted
  total functions. The reflection line is computed over real 3-vectors (`Geometry`).
- **Id-range partitioning and time windows** (`Partitioning`, `Store`). Both the half-open loop as it
  is written and the inclusive, corrected loop are modelled.
- **The upload time-range selection and clamping** of the `upload-rosbag` command (`TimeSelection`).
- **The patch statement serialiser and the download reconstructor** (`DatabaseUtils`, `Text`,
  `PointClouds`).
- **The spherical-grid deduplication and triangulation** (`RosbagMesh`).

Time is modelled in integer nanoseconds. Ids are unbounded integers, and the `as i32`, `as u32` and
`as u64` casts are written out where they matter. Floating-point values are `real`. A rendered value
is an opaque `render` parameter standing for Rust's `Display`.

Four points about the code that the model makes explicit:

- **Patch id ranges.** `(id_min..id_max)` is a half-open range, so it leaves out `id_max`. The
  as-written loop is modelled, and the upload methods use the inclusive range `id_min..=id_max`
  (see Findings).
- **Cast failures.** When a dumped part of a polyhedral surface or multi-polygon does not cast to
  PolygonZ (the cast runs before `ST_MakeValid`), the explode statement fails as a whole and inserts
  nothing. `Relations.ExplodeFeatureGeometry` fails in that case.
- **Download rows per beam.** When every feature has at most one row in the city-model subquery, the
  LEFT JOINs of the download statement give `max(1, q)·max(1, p)` rows per
  beam (`Relations.DownloadRowCount`), one per combination of its beam-model and point-model
  matches. The third LEFT JOIN, on the city-model subquery, repeats a row once per metadata row of
  its feature, so a feature with two `name` properties doubles its rows; `Relations.DownloadRowMatches`
  states the general case.
- **Task failures.** The result of each spawned task is unwrapped, so the first failing task
  panics. The model ends the run there.

## Model

| member | source | states |
|---|---|---|
| Manager.DatabaseManager.constructor | crates/sensor-data-analyzer-core/src/database_manager.rs:31-41 | a manager attached to a freshly created schema sees empty tables with every serial sequence at 1 |
| Manager.DatabaseManager.CleanDownloadTables | crates/sensor-data-analyzer-core/src/database_manager.rs:76-86 | point_cloud_download is emptied; every other table and every sequence is unchanged |
| Manager.DatabaseManager.CleanAssociationTables | crates/sensor-data-analyzer-core/src/database_manager.rs:58-74 | feature_geometry_data, association_beam_model, association_point_model and beam are emptied; the upload and download tables and the sequences are unchanged |
| Manager.DatabaseManager.Clean | crates/sensor-data-analyzer-core/src/database_manager.rs:43-56 | all six tables are emptied and only the sequences are kept, so a second clean changes nothing |
| Manager.DatabaseManager.InsertPatch | crates/sensor-data-analyzer-core/src/database_manager.rs:420-432 | one patch row with the next patch id is appended and the patch sequence advances by one |
| Manager.DatabaseManager.UploadPointCloudDirect | crates/sensor-data-analyzer-core/src/database_manager.rs:420-432 | the cloud is stored exactly when insert_point_cloud gives a statement and the cloud has a point, since the database refuses the untyped empty `ARRAY[]`; a failure returns the error or panic of insert_point_cloud or the refusal, and changes nothing; a success appends the cloud as one patch with the next id |
| Manager.DatabaseManager.UploadEach | crates/sensor-data-analyzer-core/src/database_manager.rs:215-230 | the clouds are uploaded in order until the first one that is not stored; that one ends the run with its failure as a task panic, and the earlier clouds stay uploaded |
| Manager.DatabaseManager.UploadPointCloud | crates/sensor-data-analyzer-core/src/database_manager.rs:239-315 | a cloud without ids panics and changes nothing; otherwise the patches of the corrected inclusive id ranges are uploaded in order until the first that fails |
| Manager.DatabaseManager.UploadIdRanges | crates/sensor-data-analyzer-core/src/database_manager.rs:286-314 | the loop uploads the patch of every StepSize range whose first id is at most id_max, in order, stopping at the first failure |
| Manager.DatabaseManager.UploadRosbag | crates/sensor-data-analyzer-core/src/database_manager.rs:104-237 | a step shorter than a millisecond panics and changes nothing; otherwise one cloud per time window is uploaded as a patch, in window order, until the first that is not stored, whose failure (a window without points included) ends the run as a task panic |
| Manager.DatabaseManager.ExplodeFeatureGeometryData | crates/sensor-data-analyzer-core/src/database_manager.rs:616-641 | the explode statement fails exactly when a surface part does not cast to a polygon, and then inserts nothing; otherwise its rows are appended to feature_geometry_data |
| Manager.DatabaseManager.InsertBeams | crates/sensor-data-analyzer-core/src/database_manager.rs:465-500 | either the patch has a point that gives no beam and nothing changes, or one beam per point is appended and the beam sequence advances by their number |
| Manager.DatabaseManager.InsertPointModelAssociations | crates/sensor-data-analyzer-core/src/database_manager.rs:502-514 | the point-model rows of the patch beams are appended and nothing else changes |
| Manager.DatabaseManager.InsertBeamModelAssociations | crates/sensor-data-analyzer-core/src/database_manager.rs:517-534 | the beam-model rows of the patch beams are appended and nothing else changes |
| Manager.DatabaseManager.AssociatePoints | crates/sensor-data-analyzer-core/src/database_manager.rs:455-537 | one association task does what AssociateStep says: a failing beam statement changes nothing, otherwise all three inserts happen |
| Manager.DatabaseManager.Associate | crates/sensor-data-analyzer-core/src/database_manager.rs:317-369 | the association tables are emptied first; with intersect a failing explode ends the run there; otherwise the patches are associated in upload order, and afterwards every association row names an existing beam |
| Manager.DatabaseManager.AssociateEach | crates/sensor-data-analyzer-core/src/database_manager.rs:342-362 | the loop runs one task per patch id until the first that fails, as AssociateAll says, and keeps every association pointing at a beam |
| Manager.DatabaseManager.InsertDownloadRows | crates/sensor-data-analyzer-core/src/database_manager.rs:552-590 | the download rows of the patch are appended with consecutive serial ids and the download sequence advances by their number |
| Manager.DatabaseManager.DeleteDownloadRows | crates/sensor-data-analyzer-core/src/database_manager.rs:600-610 | exactly the rows of the patch are deleted |
| Manager.DatabaseManager.DownloadAssociatePoints | crates/sensor-data-analyzer-core/src/database_manager.rs:539-614 | one download task does what DownloadStep says: insert, load the rows of the patch, delete them unless keep, derive the cloud |
| Manager.DatabaseManager.Download | crates/sensor-data-analyzer-core/src/database_manager.rs:371-417 | the download table is emptied first; there is one file per uploaded patch, in upload order and named by its patch id; each file is derived from exactly the rows inserted for its own patch; without keep the table ends empty |
| Manager.DatabaseManager.DownloadEach | crates/sensor-data-analyzer-core/src/database_manager.rs:384-414 | the loop runs one download task per patch id, in order, as DownloadAll says |
| Store.InTask | crates/sensor-data-analyzer-core/src/database_manager.rs:220-224 | a failure inside a spawned task becomes a panic with the same cause |
| Store.IdBounds | crates/sensor-data-analyzer-core/src/database_manager.rs:278-279 | with no id at all the expect panics; otherwise the two values are the least and the greatest id of the cloud |
| Store.Prepared | crates/sensor-data-analyzer-core/src/database_manager.rs:239-276 | the cloud upload_point_cloud partitions: sequential ids, then the eight zero-filled columns |
| Store.PatchesOf | crates/sensor-data-analyzer-core/src/database_manager.rs:288-291 | one filtered cloud per corrected inclusive range, in range order |
| Store.PatchesAsWrittenOf | crates/sensor-data-analyzer-core/src/database_manager.rs:288-291 | one filtered cloud per half-open range, in range order |
| Store.PlannedPatches | crates/sensor-data-analyzer-core/src/database_manager.rs:239-291 | the id bounds of the prepared cloud, whose NoIds panic it passes on, then the patches of the corrected ranges |
| Store.PlannedPatchesAsWritten | crates/sensor-data-analyzer-core/src/database_manager.rs:239-291 | the same with the half-open ranges the loop as written visits |
| Store.PreparedIds | crates/sensor-data-analyzer-core/src/database_manager.rs:240-243 | after add_sequential_id, row i has the id i |
| Store.SequentialIdBounds | crates/sensor-data-analyzer-core/src/database_manager.rs:278-279 | a cloud of n > 0 rows with row i holding the id i has the id bounds 0 and n - 1 |
| Store.PreparedIdBounds | crates/sensor-data-analyzer-core/src/database_manager.rs:239-279 | a prepared cloud of n > 0 points has the id bounds 0 and n - 1 |
| Store.PatchOfAt | crates/sensor-data-analyzer-core/src/database_manager.rs:288-291 | patch k exists exactly when its first id is at most id_max, and it holds the points whose ids lie in its StepSize range |
| Store.PatchAtCurrent | crates/sensor-data-analyzer-core/src/database_manager.rs:288-291 | the point cloud the loop filters at current_id is the k-th planned patch |
| Store.AsWrittenSinglePointLost | crates/sensor-data-analyzer-core/src/database_manager.rs:288 | as written, a cloud of one point gives no patch |
| Store.AsWrittenLastPointLost | crates/sensor-data-analyzer-core/src/database_manager.rs:288-289 | as written, when n - 1 is a multiple of StepSize the last of the n points lies in no patch |
| Store.RangeOfId | crates/sensor-data-analyzer-core/src/database_manager.rs:288-289 | an id lies in range k exactly when k is the id divided by StepSize |
| Store.InPatchOfRange | crates/sensor-data-analyzer-core/src/database_manager.rs:288-291 | a point is in patch k exactly when it is in the cloud and k is its id divided by StepSize |
| Store.SequentialPointInOnePatch | crates/sensor-data-analyzer-core/src/database_manager.rs:288-291 | with sequential ids each point is in one patch, the one its id divided by StepSize names, and in no other |
| Store.EveryPointInOnePatch | crates/sensor-data-analyzer-core/src/database_manager.rs:239-315 | with the corrected ranges every point of every cloud is uploaded in exactly one patch |
| Store.PlannedPatchesOfPrepared | crates/sensor-data-analyzer-core/src/database_manager.rs:239-291 | the planned patches of a cloud of n points are those of its prepared cloud over the ids 0 to n - 1 |
| Store.Committed | crates/sensor-data-analyzer-core/src/database_manager.rs:215-230 | the clouds before the count are all stored, and the cloud at the count, if any, is not |
| Store.CommittedAt | crates/sensor-data-analyzer-core/src/database_manager.rs:215-230 | in a run that has committed k clouds, a storable cloud k means at least k + 1 are committed, and a refused cloud k means exactly k are |
| Store.Uploadable | crates/sensor-data-analyzer-core/src/database_manager.rs:420-432 | a cloud is stored when insert_point_cloud gives its statement and it has at least one point |
| Store.UploadError | crates/sensor-data-analyzer-core/src/database_manager.rs:420-432 | a cloud that is not stored fails with the error or panic of insert_point_cloud, or, when that gave a statement, with the database refusing the empty array, propagated by `?` |
| Store.Uploaded | crates/sensor-data-analyzer-core/src/database_manager.rs:215-230 | the tables after the upload loop: the patch rows of the committed prefix appended with consecutive ids from the patch sequence |
| Store.PatchRow | crates/sensor-data-analyzer-core/src/database_utils.rs:40-130 | the patch row of an insertable cloud has the given id and one point per row, holding the twelve values the statement lists for that row |
| Store.PatchRows | crates/sensor-data-analyzer-core/src/database_manager.rs:215-230 | the rows of the first n clouds are their patch rows with consecutive ids |
| Store.UploadedNext | crates/sensor-data-analyzer-core/src/database_manager.rs:215-230 | uploading one more cloud appends its patch row with the next id and advances the patch sequence |
| Store.PatchRowsNext | crates/sensor-data-analyzer-core/src/database_manager.rs:215-230 | the rows of n + 1 clouds are those of n clouds followed by the patch row of the next one |
| Association.PatchIds | crates/sensor-data-analyzer-core/src/database_manager.rs:336-339 | the selected patch ids are those of the upload table, in table order |
| Association.IncreasingPatchIdsDistinct | crates/sensor-data-analyzer-core/src/database_manager.rs:336-339 | the patch ids of the upload table are distinct |
| Association.AssociateStep | crates/sensor-data-analyzer-core/src/database_manager.rs:455-537 | a task fails exactly when the beam statement fails; a successful task leaves the upload, feature and download tables and the other sequences as they were, and leaves association_beam_model alone without intersect |
| Association.AssociateStepFails | crates/sensor-data-analyzer-core/src/database_manager.rs:465-500 | a task fails exactly when some point of the patch has an integer outside int4 or a zero-length beam |
| Association.AssociateStepBeams | crates/sensor-data-analyzer-core/src/database_manager.rs:465-500 | a successful task appends the beams of the patch and advances the beam sequence by their number |
| Association.AssociateStepKeepsIdsBelow | crates/sensor-data-analyzer-core/src/database_manager.rs:465-500 | a task keeps every beam id below the beam sequence |
| Association.AssociateStepKeepsReferences | crates/sensor-data-analyzer-core/src/database_manager.rs:455-537 | a task adds only associations whose beam is in the beam table |
| Association.NewBeams | crates/sensor-data-analyzer-core/src/database_manager.rs:465-500 | the beams a statement adds are numbered below the advanced sequence and come after the old beams |
| Association.NewAssociationsReferenceBeams | crates/sensor-data-analyzer-core/src/database_manager.rs:502-534 | the new association rows of either kind name beams of the beam table |
| Association.AssociateAll | crates/sensor-data-analyzer-core/src/database_manager.rs:342-362 | a run changes neither the upload, feature and download tables nor the patch and download sequences, and a failed run ends in a panic |
| Association.AssociateAllKeeps | crates/sensor-data-analyzer-core/src/database_manager.rs:342-362 | a run keeps every beam id below the sequence and every association pointing at a beam |
| Association.DownloadRowsOfPatch | crates/sensor-data-analyzer-core/src/database_manager.rs:552-590 | every row the download statement inserts for a patch belongs to that patch |
| Association.RowsOfPatch | crates/sensor-data-analyzer-core/src/database_manager.rs:593-597 | the download rows loaded for a patch: exactly the table's rows with that patch id, in table order |
| Association.RowsOfOtherPatches | crates/sensor-data-analyzer-core/src/database_manager.rs:599-608 | the table after the delete: exactly the rows of the other patches |
| Association.DownloadStep | crates/sensor-data-analyzer-core/src/database_manager.rs:539-614 | one download task writes the file of its own patch, changes only the download table and its sequence, and never moves the sequence back |
| Association.DownloadStepTable | crates/sensor-data-analyzer-core/src/database_manager.rs:539-614 | after a task the table holds only old rows or rows of the patch; without keep it holds the other patches' rows; with keep the inserted rows are appended; from a table without rows of the patch the file is derived from exactly the inserted rows |
| Association.DownloadStepRows | crates/sensor-data-analyzer-core/src/database_manager.rs:590-610 | the load sees the rows of the patch and the delete keeps exactly the other patches' rows |
| Association.NewDownloadRows | crates/sensor-data-analyzer-core/src/database_manager.rs:552-590 | every download row id stays below the advanced download sequence |
| Association.RowsOfOtherPatchesSubset | crates/sensor-data-analyzer-core/src/database_manager.rs:600-610 | the delete keeps only rows already in the table and of other patches |
| Association.DownloadAll | crates/sensor-data-analyzer-core/src/database_manager.rs:384-414 | a run changes only the download table and its sequence and writes one file per patch id |
| Association.DownloadAllFiles | crates/sensor-data-analyzer-core/src/database_manager.rs:385-391 | file k is named by patch id k |
| Association.DownloadAllFirst | crates/sensor-data-analyzer-core/src/database_manager.rs:384-414 | later downloads start from the tables the first one leaves |
| Association.DownloadAllNext | crates/sensor-data-analyzer-core/src/database_manager.rs:384-414 | after one more download the remaining ones start from the tables it leaves and its file is next in line |
| Association.DownloadLeavesNoRows | crates/sensor-data-analyzer-core/src/database_manager.rs:600-610 | without keep a download that starts from an empty table leaves it empty |
| Association.EachFileFromItsOwnRows | crates/sensor-data-analyzer-core/src/database_manager.rs:539-614 | with distinct patch ids and no rows of them in the table, file k is derived from exactly the rows the statement inserts for patch k |
| Association.DownloadFromEmptyTable | crates/sensor-data-analyzer-core/src/database_manager.rs:371-417 | from an empty table every file is derived from its own patch's rows, and without keep the table ends empty |
| Relations.SurfaceParts | crates/sensor-data-analyzer-core/src/database_manager.rs:619-637 | the parts are exactly the dumped parts of the polyhedral surfaces and multi-polygons of geometry_data |
| Relations.PartsOf | crates/sensor-data-analyzer-core/src/database_manager.rs:616-641 | the parts of one geometry row: one per ST_Dump part, in dump order, each with its source row |
| Relations.ValidPolygon | crates/sensor-data-analyzer-core/src/database_manager.rs:616-641 | the ST_MakeValid repair is kept as valid_geometry when it is a planar polygon, and is NULL otherwise |
| Relations.RowOfPart | crates/sensor-data-analyzer-core/src/database_manager.rs:619-637 | a part's row has its source id and feature id, its polygon cast and the repaired polygon as valid_geometry |
| Relations.RowsOfParts | crates/sensor-data-analyzer-core/src/database_manager.rs:619-637 | the rows are exactly those of the parts that cast to a polygon |
| Relations.ExplodeFeatureGeometry | crates/sensor-data-analyzer-core/src/database_manager.rs:616-641 | the statement fails exactly when some surface part does not cast to a polygon; otherwise its rows are exactly those of the parts |
| Relations.ExplodedRowsFromSurfaces | crates/sensor-data-analyzer-core/src/database_manager.rs:619-637 | every row comes from a surface geometry, and its valid_geometry is present exactly when the repaired polygon is a planar polygon |
| Relations.EveryPartExploded | crates/sensor-data-analyzer-core/src/database_manager.rs:619-637 | every part of every surface geometry gives a row unless the statement fails |
| Relations.OnlySurfacesExploded | crates/sensor-data-analyzer-core/src/database_manager.rs:619-637 | a city model without surface geometries gives no rows |
| Relations.OriginOf | crates/sensor-data-analyzer-core/src/database_manager.rs:465-500 | a point's beam origin is its beam_origin_x, beam_origin_y and beam_origin_z |
| Relations.ReflectionOf | crates/sensor-data-analyzer-core/src/database_manager.rs:465-500 | a point's reflection is its x, y and z |
| Relations.BeamOf | crates/sensor-data-analyzer-core/src/database_manager.rs:465-500 | a point gives no beam exactly when an integer is outside int4 or the beam has length zero; a beam has the given id, patch id and point id |
| Relations.BeamOfGeometry | crates/sensor-data-analyzer-core/src/database_manager.rs:465-500 | a beam runs from the beam origin to the point, has that segment's non-zero length, and its reflection line is centred on the point |
| Relations.BeamsOf | crates/sensor-data-analyzer-core/src/database_manager.rs:465-500 | the statement fails exactly when some point gives no beam; otherwise there is one beam per point, numbered on from the first id |
| Relations.PatchPointsOf | crates/sensor-data-analyzer-core/src/database_manager.rs:465-499 | the PC_Explode points of the upload rows with the given patch id, rows in table order |
| Relations.BeamsOfPatch | crates/sensor-data-analyzer-core/src/database_manager.rs:465-499 | the beam statement for one patch: BeamsOf over that patch's points |
| Relations.Int4 | crates/sensor-data-analyzer-core/src/schema.rs:46-57 | a value fits an `Int4` column of the beam table exactly when it lies in [-2^31, 2^31) |
| Relations.Int4Point | crates/sensor-data-analyzer-core/src/schema.rs:46-57 | a point gives a storable beam row only when its id, timestamp seconds and nanoseconds, message id and point id all fit `Int4` |
| Relations.BeamPerPoint | crates/sensor-data-analyzer-core/src/database_manager.rs:465-500 | beam k of a patch is that of point k, numbered first id + k, from its origin to its reflection, with a centred reflection line |
| Relations.PointModelRows | crates/sensor-data-analyzer-core/src/database_manager.rs:502-514 | the rows are distinct and are exactly the pairs of a patch beam and a geometry within the threshold of its reflection, with their distance |
| Relations.ValidFeatures | crates/sensor-data-analyzer-core/src/database_manager.rs:521-531 | the joined features are exactly the rows whose valid_geometry is present |
| Relations.BeamModelRows | crates/sensor-data-analyzer-core/src/database_manager.rs:517-534 | the rows are distinct and are exactly the pairs of a patch beam and a valid geometry its reflection line intersects, with the intersection |
| Relations.Numbered | crates/sensor-data-analyzer-core/src/database_manager.rs:552-590 | the rows get consecutive serial ids from the first id |
| Relations.MetadataRows | crates/sensor-data-analyzer-core/src/database_manager.rs:551-588 | the metadata subquery: per feature, every pairing of its class rows and name rows, a NULL standing in for a missing one |
| Relations.DownloadEntryOf | crates/sensor-data-analyzer-core/src/database_manager.rs:551-588 | one download row: the beam's columns, then the metadata, beam-model and point-model columns, NULL where the join found nothing |
| Relations.DownloadRowsOfBeam | crates/sensor-data-analyzer-core/src/database_manager.rs:551-588 | the rows of one beam: every combination of its beam-model and point-model LEFT JOIN matches |
| Relations.DownloadRows | crates/sensor-data-analyzer-core/src/database_manager.rs:551-588 | the download statement: the rows of each beam of the patch, in beam order, numbered from the download sequence; DownloadRowCount states their number |
| Relations.EveryBeamDownloaded | crates/sensor-data-analyzer-core/src/database_manager.rs:552-590 | every beam gives at least one download row, whatever its matches |
| Relations.DownloadRowCount | crates/sensor-data-analyzer-core/src/database_manager.rs:552-590 | with at most one metadata row per feature a beam gives max(1, q)·max(1, p) rows, for q beam-model and p point-model matches |
| Relations.RowsForPointModelCount | crates/sensor-data-analyzer-core/src/database_manager.rs:552-590 | with at most one metadata row per feature each point-model option gives exactly one row |
| Relations.DownloadRowMatches | crates/sensor-data-analyzer-core/src/database_manager.rs:552-590 | every download row of a beam comes from one beam-model option, one point-model option and one metadata option |
| Relations.DownloadRowOfBeam | crates/sensor-data-analyzer-core/src/database_manager.rs:552-590 | a download row keeps its beam's patch, point, length, reflection and origin; its angle is present exactly when there is a beam-model match; its distance and metadata come from a point-model match, and are all null without one |
| DatabaseUtils.FirstMissing | crates/sensor-data-analyzer-core/src/database_utils.rs:45-52 | the first column fetched with ? that the cloud lacks, or none when it has them all |
| DatabaseUtils.Insertable | crates/sensor-data-analyzer-core/src/database_utils.rs:45-118 | insert_point_cloud gives a statement exactly when the cloud has every column it fetches and no null value where it unwraps |
| DatabaseUtils.Entry | crates/sensor-data-analyzer-core/src/database_utils.rs:101-116 | the text of one point: its twelve rendered values separated by ", " |
| DatabaseUtils.Values | crates/sensor-data-analyzer-core/src/database_utils.rs:71-115 | the twelve values of a point in the order of the statement |
| DatabaseUtils.RenderedValues | crates/sensor-data-analyzer-core/src/database_utils.rs:101-115 | twelve rendered values per point |
| DatabaseUtils.Entries | crates/sensor-data-analyzer-core/src/database_utils.rs:71-118 | one text per point, in row order |
| DatabaseUtils.InsertPointCloud | crates/sensor-data-analyzer-core/src/database_utils.rs:40-130 | a statement exactly when the cloud is insertable, and then one statement of prefix, joined entries and suffix; a missing column fetched with ? is an error naming the first such column; a missing row value or a missing ros column is a panic |
| DatabaseUtils.EmptyCloudStatement | crates/sensor-data-analyzer-core/src/database_utils.rs:120-129 | a cloud without points gives the statement with an empty array |
| DatabaseUtils.EntryFieldOrder | crates/sensor-data-analyzer-core/src/database_utils.rs:101-115 | a point's text splits back into its twelve values in statement order |
| DatabaseUtils.StatementSplitsIntoValues | crates/sensor-data-analyzer-core/src/database_utils.rs:71-129 | value k of point i sits at position 12·i + k of the value list inside the statement |
| DatabaseUtils.PatchPointOf | crates/sensor-data-analyzer-core/src/database_utils.rs:125-128 | the stored patch point holds exactly the values the statement lists |
| DatabaseUtils.PatchPoints | crates/sensor-data-analyzer-core/src/database_utils.rs:125-128 | one stored point per row, each holding that row's values |
| DatabaseUtils.DerivePointCloud | crates/sensor-data-analyzer-core/src/database_utils.rs:132-289 | eighteen named columns, one entry per downloaded row, entry i of each column being that column's value of row i |
| DatabaseUtils.CellOf | crates/sensor-data-analyzer-core/src/database_utils.rs:135-261 | the value of one output column for one downloaded row, with the `as` casts and the NULL defaults written out |
| DatabaseUtils.AsU64 | crates/sensor-data-analyzer-core/src/database_utils.rs:156-162 | `as u64` on the i32 point id: a value below 2^64 congruent to it modulo 2^64, the id itself when it is not negative |
| DatabaseUtils.AsU32 | crates/sensor-data-analyzer-core/src/database_utils.rs:170-176 | `as u32` on the i32 nanoseconds: a value below 2^32 congruent to it modulo 2^32, the value itself when it is not negative |
| DatabaseUtils.DerivedColumnsDistinct | crates/sensor-data-analyzer-core/src/database_utils.rs:263-283 | no column name occurs twice, so the data frame is accepted |
| DatabaseUtils.IndexOf | crates/sensor-data-analyzer-core/src/database_utils.rs:263-282 | each output column has its position in the column list |
| DatabaseUtils.RoundTripCoordinates | crates/sensor-data-analyzer-core/src/database_utils.rs:135-162 | x, y, z and the point id of each downloaded row survive into the cloud |
| DatabaseUtils.NullDefaults | crates/sensor-data-analyzer-core/src/database_utils.rs:227-261 | null feature metadata becomes the empty string; a distance or angle becomes NaN exactly when it is null |
| DatabaseUtils.BeamOriginColumnsCopyReflection | crates/sensor-data-analyzer-core/src/database_utils.rs:184-204 | as written the beam origin columns repeat x, y and z, so a beam origin that differs from the point is lost |
| DatabaseUtils.CorrectedDerivePointCloud | crates/sensor-data-analyzer-core/src/database_utils.rs:132-289 | eighteen named columns with one entry per downloaded row |
| DatabaseUtils.CorrectedCellOf | crates/sensor-data-analyzer-core/src/database_utils.rs:135-261 | the value of one output column for one downloaded row, as CellOf gives it except that the beam-origin columns carry beam_origin_x/y/z |
| DatabaseUtils.CorrectedKeepsBeamOrigin | crates/sensor-data-analyzer-core/src/database_utils.rs:184-204 | the corrected cloud keeps each row's beam origin and agrees with the written one in every other column |
| PointClouds.AddSequentialId | crates/sensor-data-analyzer-core/src/database_manager.rs:240-243 | row i gets the id i and the cloud gains an id column; nothing else changes |
| PointClouds.ZeroFilled | crates/sensor-data-analyzer-core/src/database_manager.rs:245-276 | zero filling keeps the rows and their ids |
| PointClouds.ZeroFilledColumns | crates/sensor-data-analyzer-core/src/database_manager.rs:245-276 | after zero filling the eight columns exist and hold zeros, and every other column is as it was |
| PointClouds.ZeroFilledRowField | crates/sensor-data-analyzer-core/src/database_manager.rs:245-276 | each column of a zero-filled row holds zero if it is one of the eight, and its old value otherwise |
| PointClouds.Ids | crates/sensor-data-analyzer-core/src/database_manager.rs:278-279 | the ids present in the cloud, each from some row |
| PointClouds.Min | crates/sensor-data-analyzer-core/src/database_manager.rs:278 | the least id |
| PointClouds.Max | crates/sensor-data-analyzer-core/src/database_manager.rs:279 | the greatest id |
| PointClouds.FilterByIdRange | crates/sensor-data-analyzer-core/src/database_manager.rs:290-291 | a row is kept exactly when its id lies in the inclusive range |
| Partitioning.PatchCount | crates/sensor-data-analyzer-core/src/database_manager.rs:288 | as written there are ceil((id_max - id_min) / StepSize) ranges, and none when id_min = id_max |
| Partitioning.PatchRanges | crates/sensor-data-analyzer-core/src/database_manager.rs:288-289 | one range [s, s + 99999] for every start s of `(id_min..id_max).step_by(100000)`, none when id_min >= id_max; PatchCount, PatchRangesAdjacent and PatchRangesCover state its count, adjacency and cover |
| Partitioning.InclusivePatchRanges | crates/sensor-data-analyzer-core/src/database_manager.rs:288-289 | the ranges of the starts of `id_min..=id_max`; InclusiveRangesCoverAll states that they cover every id |
| Partitioning.PatchRangeAt | crates/sensor-data-analyzer-core/src/database_manager.rs:288-289 | range k starts at id_min + k·StepSize, below id_max, and spans StepSize ids |
| Partitioning.PatchRangesAdjacent | crates/sensor-data-analyzer-core/src/database_manager.rs:288-289 | each range starts right after the previous one ends |
| Partitioning.PatchRangesDisjoint | crates/sensor-data-analyzer-core/src/database_manager.rs:288-289 | no id lies in two ranges |
| Partitioning.PatchRangesCover | crates/sensor-data-analyzer-core/src/database_manager.rs:288-289 | as written every id from id_min below id_max is covered, none below id_min, and id_max only when the span is not a multiple of StepSize |
| Partitioning.EqualIdsGiveNoPatch | crates/sensor-data-analyzer-core/src/database_manager.rs:288 | equal bounds give no range |
| Partitioning.LastIdMissed | crates/sensor-data-analyzer-core/src/database_manager.rs:288-289 | ids 0 to 100000 give the single range 0 to 99999, so id 100000 is lost |
| Partitioning.InclusiveRangesCoverAll | crates/sensor-data-analyzer-core/src/database_manager.rs:288-289 | the corrected ranges number floor((id_max - id_min) / StepSize) + 1 and cover every id from id_min to id_max and none below |
| Partitioning.InclusiveRangeIndex | crates/sensor-data-analyzer-core/src/database_manager.rs:288-289 | the corrected range k exists exactly when its start is at most id_max |
| Partitioning.TotalSteps | crates/sensor-data-analyzer-core/src/database_manager.rs:113-116 | a step under a millisecond is a division by zero; otherwise the truncated millisecond quotient, wrapped to i32 |
| Partitioning.TruncDiv | crates/sensor-data-analyzer-core/src/database_manager.rs:115-116 | the quotient of `/` on i64: its magnitude times the divisor's is at most the dividend's and within one divisor of it, and it is negative only when exactly one operand is |
| Partitioning.Millis | crates/sensor-data-analyzer-core/src/database_manager.rs:113-116 | num_milliseconds: the whole milliseconds of a duration, truncated toward zero, with the duration's sign |
| Partitioning.AsI32 | crates/sensor-data-analyzer-core/src/database_manager.rs:115-116 | `as i32`: a value in the i32 range that is congruent to its input modulo 2^32 |
| Partitioning.StepWindows | crates/sensor-data-analyzer-core/src/database_manager.rs:113-136 | the windows of total_steps steps from start; it fails exactly when total_steps divides by zero |
| Partitioning.Windows | crates/sensor-data-analyzer-core/src/database_manager.rs:126-136 | one window per step, none for a step count of zero or less |
| Partitioning.WindowsAdjacent | crates/sensor-data-analyzer-core/src/database_manager.rs:129-130 | window i runs from start + i·D to start + (i + 1)·D and ends where window i + 1 begins |
| Partitioning.AsI32InRange | crates/sensor-data-analyzer-core/src/database_manager.rs:115-116 | a count within the i32 range is unchanged by the cast |
| Partitioning.NoWindowsWhenStopNotAfterStart | crates/sensor-data-analyzer-core/src/database_manager.rs:113-136 | with a positive step of at least a millisecond and a gap within the i32 range of milliseconds, a stop not after the start gives no window |
| Partitioning.SubMillisecondStepPanics | crates/sensor-data-analyzer-core/src/database_manager.rs:115-116 | a step under a millisecond panics |
| Partitioning.WholeMillisecondWindowsEndByStop | crates/sensor-data-analyzer-core/src/database_manager.rs:113-136 | with start ≤ stop, a positive whole-millisecond step and a step count below 2^31, the windows end by the stop and the last one ends less than a step before it |
| Partitioning.FractionalStepOverrunsStop | crates/sensor-data-analyzer-core/src/database_manager.rs:113-136 | a step of 1.5 ms over 2.9 ms gives two windows, the second ending after the stop |
| Partitioning.StepCountWraps | crates/sensor-data-analyzer-core/src/database_manager.rs:115-116 | 2^31 one-millisecond steps wrap to a negative count and give no window |
| TimeSelection.RequestedStart | crates/sensor-data-analyzer-cli/src/commands/upload_rosbag.rs:71-72 | the start is the given start, or the bag start, plus the offset |
| TimeSelection.RequestedStop | crates/sensor-data-analyzer-cli/src/commands/upload_rosbag.rs:73-81 | the stop is the given stop, else start plus total duration, else the bag stop; both given logs a warning |
| TimeSelection.SelectUploadRange | crates/sensor-data-analyzer-cli/src/commands/upload_rosbag.rs:71-100 | the start is raised to the bag start and the stop lowered to the bag stop, each with its warning exactly when it is clamped |
| TimeSelection.OffsetAppliesToExplicitStart | crates/sensor-data-analyzer-cli/src/commands/upload_rosbag.rs:71-72 | the offset shifts an explicit start too |
| TimeSelection.TotalDurationFromUnclampedStart | crates/sensor-data-analyzer-cli/src/commands/upload_rosbag.rs:73-81 | a total duration is measured from the start before clamping |
| TimeSelection.SelectionWithinBag | crates/sensor-data-analyzer-cli/src/commands/upload_rosbag.rs:83-100 | the selected start and stop lie inside the bag |
| TimeSelection.RangeInsideBagUnchanged | crates/sensor-data-analyzer-cli/src/commands/upload_rosbag.rs:83-100 | a range inside the bag passes unchanged and without a clamping warning |
| TimeSelection.InvertedRangePassesThrough | crates/sensor-data-analyzer-cli/src/commands/upload_rosbag.rs:71-100 | a stop before the start is passed on inverted, without warning |
| TimeSelection.SelectionIdempotent | crates/sensor-data-analyzer-cli/src/commands/upload_rosbag.rs:71-100 | selecting again from the result gives the same range |
| Geometry.Midpoint | crates/sensor-data-analyzer-core/src/database_manager.rs:465-500 | the midpoint is as far from the start as from the end |
| Geometry.ReflectionLine | crates/sensor-data-analyzer-core/src/database_manager.rs:465-500 | the reflection line fails exactly for a zero length, as a division by zero |
| Geometry.ReflectionLineCentredOnReflection | crates/sensor-data-analyzer-core/src/database_manager.rs:465-500 | the reflection line is centred on the reflection point, not on the beam |
| Geometry.ReflectionLineAlongBeam | crates/sensor-data-analyzer-core/src/database_manager.rs:465-500 | the reflection line points along the beam |
| Geometry.ReflectionLineLength | crates/sensor-data-analyzer-core/src/database_manager.rs:465-500 | with the beam's true length the reflection line is 2·threshold long |
| Text.Split | crates/sensor-data-analyzer-core/src/database_utils.rs:120-123 | splitting always gives at least one part |
| Text.Join | crates/sensor-data-analyzer-core/src/database_utils.rs:120-123 | the `intersperse(", ")` of the entries: the parts with ", " between neighbours; SplitJoin states the inverse |
| Text.SplitPlain | crates/sensor-data-analyzer-core/src/database_utils.rs:120-123 | a value without the separator splits into itself |
| Text.SplitHead | crates/sensor-data-analyzer-core/src/database_utils.rs:120-123 | a separator-free head and the rest split into that head followed by the rest's parts |
| Text.SplitJoin | crates/sensor-data-analyzer-core/src/database_utils.rs:120-123 | splitting a join gives back the parts, when no part contains the separator |
| Text.JoinAppend | crates/sensor-data-analyzer-core/src/database_utils.rs:120-123 | joining two non-empty lists is joining each with a separator between |
| Text.JoinConcat | crates/sensor-data-analyzer-core/src/database_utils.rs:101-123 | joining joined groups equals joining all their parts |
| Text.ConcatUniformLength | crates/sensor-data-analyzer-core/src/database_utils.rs:101-123 | groups of k values each concatenate to the number of groups times k values |
| Text.ConcatAt | crates/sensor-data-analyzer-core/src/database_utils.rs:101-123 | value j of group i sits at position i·k + j |
| RosbagMesh.Cells | crates/sensor-data-analyzer-core/src/rosbag_mesh.rs:175-178 | the grouping keys: each occupied cell once, and no other |
| RosbagMesh.Nearest | crates/sensor-data-analyzer-core/src/rosbag_mesh.rs:179-184 | a cell's kept row is one of its rows, none of which is nearer its centre, and there is none for an empty cell |
| RosbagMesh.RemoveCellDuplicates | crates/sensor-data-analyzer-core/src/rosbag_mesh.rs:169-189 | one row per group, each the nearest row of its cell |
| RosbagMesh.RemoveCellDuplicatesCells | crates/sensor-data-analyzer-core/src/rosbag_mesh.rs:169-189 | afterwards each cell has one row and the occupied cells are as before |
| RosbagMesh.RemoveCellDuplicatesNearest | crates/sensor-data-analyzer-core/src/rosbag_mesh.rs:179-184 | each kept row is an original row, and no row of its cell is nearer the centre |
| RosbagMesh.RemoveCellDuplicatesOnUniqueCells | crates/sensor-data-analyzer-core/src/rosbag_mesh.rs:169-189 | a frame with one row per cell is left as it is, so deduplicating twice changes nothing |
| RosbagMesh.Insert | crates/sensor-data-analyzer-core/src/rosbag_mesh.rs:233-239 | inserting into a sorted frame keeps it sorted and adds exactly the row |
| RosbagMesh.SortByCell | crates/sensor-data-analyzer-core/src/rosbag_mesh.rs:233-239 | the frame sorted by elevation, then azimuth, holding the same rows |
| RosbagMesh.SortKeepsCells | crates/sensor-data-analyzer-core/src/rosbag_mesh.rs:233-239 | sorting keeps exactly the occupied cells |
| RosbagMesh.GetRowPoint | crates/sensor-data-analyzer-core/src/rosbag_mesh.rs:304-327 | none exactly when no row is in the cell |
| RosbagMesh.GetRowPointFirst | crates/sensor-data-analyzer-core/src/rosbag_mesh.rs:304-327 | the point found is that of the first row in the cell |
| RosbagMesh.GenerateMesh | crates/sensor-data-analyzer-core/src/rosbag_mesh.rs:191-285 | the mesh is that of the sorted frame, rows in order |
| RosbagMesh.Triangulate | crates/sensor-data-analyzer-core/src/rosbag_mesh.rs:242-282 | the loop adds each row's triangles, in row order |
| RosbagMesh.CellTrianglesIff | crates/sensor-data-analyzer-core/src/rosbag_mesh.rs:247-281 | a row gives triangles exactly when its right, upper and upper-right cells are occupied, and then exactly [current, upper, right] and [right, upper, upper right] |
| RosbagMesh.CellTriangles | crates/sensor-data-analyzer-core/src/rosbag_mesh.rs:247-281 | the triangles one row adds: [current, upper, right] and [right, upper, upper right] when all three neighbour cells are found, none otherwise |
| RosbagMesh.Mesh | crates/sensor-data-analyzer-core/src/rosbag_mesh.rs:191-285 | the mesh of a frame: the triangles of every row of the frame sorted by cell, in sorted order |
| RosbagMesh.TrianglesCount | crates/sensor-data-analyzer-core/src/rosbag_mesh.rs:242-282 | two triangles for every qualifying row and none for the others |
| RosbagMesh.MeshSize | crates/sensor-data-analyzer-core/src/rosbag_mesh.rs:191-285 | the mesh has two triangles per qualifying row, and a row qualifies in the sorted frame exactly when it does in the frame given |

## Left out

- Concurrency: the spawned tasks, their joins and the connection pool are modelled as a sequential loop in spawn order. The first task that fails ends the run with a panic (`Store.InTask`), and every earlier one stays committed. Under the real scheduler, later tasks may also run, and statements may interleave.
- PostGIS and pgPointCloud functions (`ST_3DDWithin`, `ST_3DDistance`, `ST_MakeValid`, `ST_IsPlanar`, `ST_3DIntersects`, `ST_3DIntersection`, `ST_Dump`, the polygon cast): each is a field of `Relations.Spatial`, an uninterpreted total function. `PC_Explode` and `PC_Get` are not a field: `Relations.PatchPointsOf` reads back the points stored in the patch's upload row. The model assumes `PC_MakePatch` stores exactly the values the statement lists (`DatabaseUtils.PatchPointOf`).
- Serial sequences: a failed beam insert is modelled as leaving the beam sequence unchanged. PostgreSQL may consume sequence values in a statement that fails, so real ids may have gaps.
- `associate`'s `keep_temporary_table_entries` is accepted and passed on, and `associate_points` never reads it. The model takes the flag and ignores it.
- Floating point: `f32`/`f64` values are reals. The `as f32` narrowing in `derive_point_cloud` is not modelled, and NaN is a distinct marker cell. `sphere.rs`, `rasterize_point_cloud` and `calculate_cell_center_distance` are float computations and are not part of this model. The mesh rows arrive with their integer cells and distances already computed.
- I/O: the output and artefact directories, the `.xyz`, `.tar` and glTF writers, `colorize_by_column_hash`, logging, the `println!` of the sorted frame, `run_stats`, environment variables and the CLI parsing are not part of this model.
- Rosbag extraction, reference-frame merging and resolution, and downsampling: `Manager.DatabaseManager.UploadRosbag` receives the cloud of each window through an `extract` parameter, which also stands for `add_sequential_id` on those clouds.
- `RosbagMesh.RemoveCellDuplicates`: polars' `group_by` gives groups in no fixed order. The model emits them in order of first appearance. Among rows at equal distance it keeps the first, where the default, unstable sort may keep any of them. The in-place overwrite of the data frame is modelled as returning the new rows.
- `RosbagMesh.SortByCell`: the model sorts stably. The source's default sort does not keep the order of equal keys, and after deduplication there are none.
- `RosbagMesh.GenerateMesh`: `Polygon::new(…).unwrap()` is assumed to accept every triangle, and a mesh is the list of its triangles in insertion order. The vertex and face buffers of `emesh::Mesh` are not modelled. Cell indices are unbounded, so the `i32` overflow of `azimuth + 1` at `i32::MAX` is not modelled.
- `get_spherical_cell_index` and `get_point` are not modelled separately: they read one row's cell and coordinates, which the `GridRow` datatype holds directly. Their `expect` on a missing column is not modelled.
- `upload_point_cloud`'s `add_*_column` calls on a cloud that already has the column are assumed to overwrite it with zeros. The model does not capture the error polars may return for a duplicate column.
- `Manager.DatabaseManager.constructor`: the model starts from a freshly created schema, with empty tables and every sequence at 1. `DatabaseManager::new` only builds a connection pool; it neither creates nor empties the tables, and the database it attaches to may already hold rows.
- Raw city model tables are reduced to the fields the statements read (`Models.CityModel`).
- The serial `id` columns of association_beam_model, association_point_model and feature_geometry_data (`schema.rs:20`, `:32`, `:67`) are not modelled, because no statement of the core reads them.
- `Manager.DatabaseManager.UploadPointCloudDirect`: the only refusal by the database that the model contains is that of the untyped empty `ARRAY[]`. Connection and pool errors and every other database error are not modelled, and every other statement executes.
- `Manager.DatabaseManager.InsertDownloadRows`: the `varchar` limits of point_cloud_download (gml_id and classname at most 256 characters, gml_name at most 1000; `schema.rs:95-100`) are not modelled. A longer value would make the download statement fail, and the model inserts the row.
- Row order of unordered queries: the patch-id lists of `associate` and `download` (`database_manager.rs:336-339`, `:379-382`) and the loaded download rows (`:593-597`) have no `ORDER BY`. The model reads them in insertion order, which PostgreSQL does not promise. The output order of the `INSERT … SELECT` statements is fixed the same way: joins and `DISTINCT` give rows in outer-then-inner sequence order (`Relations.BeamsOf`, `Relations.PointModelRows`, `Relations.BeamModelRows`, `Relations.DownloadRows`, `Seqs.Distinct`). That order decides which serial `beam` and `point_cloud_download` id goes to which row, and PostgreSQL does not promise it either.

## Findings

| source | as written | input that shows it | evidently intended | confidence | as-written member | corrected member |
|---|---|---|---|---|---|---|
| crates/sensor-data-analyzer-core/src/database_manager.rs:288-289 | the loop `(id_min..id_max).step_by(100000)` excludes `id_max`, so the point with the greatest id is left out of every patch when `id_max - id_min` is a multiple of 100000; a single-point cloud gives no patch at all | a cloud of 100001 points (ids 0 to 100000): the only range is 0 to 99999; a cloud of one point: no range | iterate over `id_min..=id_max`, so every point is in exactly one patch | not executed | Store.AsWrittenLastPointLost | Store.EveryPointInOnePatch |
| crates/sensor-data-analyzer-core/src/database_utils.rs:184-204 | the `beam_origin_x/y/z` columns of the downloaded cloud are filled from the row's `x/y/z` | a row with beam origin (0, 0, 0) and reflection (1, 2, 3): its cloud has beam origin (1, 2, 3) | fill them from the row's `beam_origin_x/y/z` | not executed | DatabaseUtils.BeamOriginColumnsCopyReflection | DatabaseUtils.CorrectedKeepsBeamOrigin |

The first finding also has `Partitioning.LastIdMissed`, `Partitioning.PatchRangesCover` and `Store.AsWrittenSinglePointLost`, which state the as-written behaviour, and `Partitioning.InclusiveRangesCoverAll` for the correction. The upload methods use the corrected ranges (`Store.PlannedPatches`), and the download uses `DatabaseUtils.CorrectedDerivePointCloud`.
