# BigBlueButton activity module: recording listing and legacy recording migration

A Dafny model of two pieces of the Moodle BigBlueButton activity plugin.

The first is the **legacy recording migration task**, an adhoc task. One run does this:
- It selects at most 10 "Create" log rows whose metadata contains `true`, in
  (courseid, bigbluebuttonbnid, meetingid, timecreated) order.
- It groups them by meeting id and by instance id. A later row overwrites an
  earlier one with the same key.
- It asks the conferencing provider for the recordings of those meetings.
- For each recording, it inserts a recording row unless a row with the same
  (courseid, bigbluebuttonbnid, groupid, recordingid, status, imported) already exists.
- It deletes every selected log.
- It queues itself again exactly when it took a full chunk.

The second is the **data shaping of the `get_recordings` web service**:
- the group access check;
- the enabled tools;
- removing recordings already imported into another activity;
- dropping empty rendered rows;
- the column schema;
- the table locale and the ping interval.

Modules:
- `Wrappers`: Option and Result.
- `PhpStrings`: the PHP built-ins the code calls (`strpos`, `substr` from 0,
  `explode`), `implode` as the inverse of `explode` for stating its round
  trips, and the substring test behind the SQL condition `LIKE '%true%'`.
- `LegacyLogs`: the log table. It covers eligibility, the chunk a run selects,
  last-write-wins grouping, deletion by id, and progress from one run to the next.
- `RecordingMigration`: the recordings table and the conditional-insert pass,
  specified by `InsertCandidates`.
- `UpgradeTask`: the task as a class `UpgradeRecordings` that holds the two
  tables. Its methods have the source's insert and delete loops. The grouping
  loop is the module-level method `GroupByLast`, which changes no table.
- `GetRecordings`: the listing service. The imported-recording filter, the row
  building and the column appends are methods. Each is proved equal to a
  specification function, and the properties are proved about that function.

Collaborators are parameters:
- the provider fetch is a function from a set of meeting ids to recordings;
- the `in_array` test against the fetched instance records is a function;
- the row renderer and `get_string` are functions;
- groups, capabilities, configuration values and retrieved recording lists are
  fields of a `Context` value.

Two behaviours follow the code as written:
- A language tag with no `.` gives the locale `""`. `strpos` returns false,
  and `substr` reads false as the length 0.
- The headless flag is the result of `in_array` on the fetched instance
  records, which hold record objects rather than ids. It is not proved to
  reflect whether the instance still exists, only that it is 0 or 1.

## Model

| member | source | states |
|---|---|---|
| `PhpStrings.StrPos` | classes/external/get_recordings.php:162 | strpos: None exactly when the character is absent, else the index of its first occurrence |
| `PhpStrings.Explode` | classes/external/get_recordings.php:120 | explode gives at least one piece and no piece contains the separator |
| `PhpStrings.Prefix` | classes/external/get_recordings.php:162-166 | `substr(s, 0, n)`: the first n characters, or all of s when n exceeds its length; with `LengthArg`, a false from `strpos` is read as length 0 |
| `PhpStrings.ImplodeExplode` | classes/external/get_recordings.php:120 | joining the pieces of the comma split with ',' gives back the input |
| `PhpStrings.Contains` | classes/task/upgrade_recordings.php:56 | a string contains a substring only when the substring is no longer than it |
| `PhpStrings.ExplodeImplode` | classes/external/get_recordings.php:117-120 | splitting a join of separator-free parts gives back the parts |
| `PhpStrings.ContainsIffOccurs` | classes/task/upgrade_recordings.php:56 | `meta LIKE '%true%'` holds exactly when "true" occurs at some index of meta |
| `LegacyLogs.EligibleLogs` | classes/task/upgrade_recordings.php:54-57 | the filtered, ordered rows are no more than the table's and all satisfy `log = 'Create' AND meta LIKE '%true%'` |
| `LegacyLogs.Chunk` | classes/task/upgrade_recordings.php:54-59 | the `LIMIT 10` selection has at most 10 rows, at most as many as the table, all eligible |
| `LegacyLogs.ChunkSelection` | classes/task/upgrade_recordings.php:48-59 | a run takes at most 10 rows, all eligible rows of the table; 10 exactly when at least 10 are eligible; fewer means all eligible rows; in a key-ordered table the rows taken are in key order and every eligible row left behind comes after every row taken |
| `LegacyLogs.EligibleLogsMembers` | classes/task/upgrade_recordings.php:56 | the eligible rows are exactly the table's "Create" rows whose meta contains "true" |
| `LegacyLogs.LastByKey` | classes/task/upgrade_recordings.php:62-73 | in the keyed map every key maps to a row carrying that key |
| `LegacyLogs.LastWriteWins` | classes/task/upgrade_recordings.php:62-73 | the grouping's keys are exactly the chunk's keys, and each key maps to the last row of the chunk carrying it |
| `LegacyLogs.MeetingGroupKeys` | classes/task/upgrade_recordings.php:62-66 | the meeting-id map's keys are exactly the chunk's meeting ids |
| `LegacyLogs.Without` | classes/task/upgrade_recordings.php:106-110 | deleting by id never adds rows, and no remaining row carries a deleted id |
| `LegacyLogs.WithoutKeepsOrder` | classes/task/upgrade_recordings.php:106-110 | deleting rows by id keeps the table's key order and its distinct ids |
| `LegacyLogs.DeletingChunk` | classes/task/upgrade_recordings.php:106-110 | after deleting the chunk, no fetched row remains, every row not fetched remains, and the table shrank by the chunk's size |
| `LegacyLogs.NextRunResumes` | classes/task/upgrade_recordings.php:106-112 | the next run sees exactly the eligible rows after the chunk; a run with fewer than 10 rows leaves no eligible row |
| `RecordingMigration.CountMatching` | classes/task/upgrade_recordings.php:93 | count_records is at most the table size |
| `RecordingMigration.Candidate` | classes/task/upgrade_recordings.php:85-98 | the row built for a fetched recording carries the candidate key, is migrated from its log, and is headless exactly when the instance check fails |
| `RecordingMigration.InsertCandidates` | classes/task/upgrade_recordings.php:83-102 | the insert pass keeps the table or grows it by at most one row per fetched recording |
| `RecordingMigration.CountZeroIff` | classes/task/upgrade_recordings.php:93 | count_records on the six key fields is 0 exactly when no row carries that key |
| `RecordingMigration.InsertKeepsExisting` | classes/task/upgrade_recordings.php:83-102 | existing rows are unchanged and kept in place; the table grows by at most the number of fetched recordings |
| `RecordingMigration.InsertedRowsShape` | classes/task/upgrade_recordings.php:84-98 | every added row is built for a fetched recording from the log the meeting-id map holds for it: that log's courseid, bigbluebuttonbnid and timecreated (as both timestamps), groupid 0, status 2, imported 0, importeddata '', headless 0 or 1 |
| `RecordingMigration.InsertedKeysFresh` | classes/task/upgrade_recordings.php:85-93 | an added row's six-field key matches no earlier row, so the pass creates no duplicate |
| `RecordingMigration.AllCandidatesPresent` | classes/task/upgrade_recordings.php:83-102 | afterwards every fetched recording has a row with its candidate key |
| `RecordingMigration.NothingNewToInsert` | classes/task/upgrade_recordings.php:93 | when every candidate key already has a row, the pass leaves the table unchanged |
| `RecordingMigration.InsertIdempotent` | classes/task/upgrade_recordings.php:85-93 | a second pass over the same logs and provider answer inserts nothing |
| `UpgradeTask.MigrateChunk` | classes/task/upgrade_recordings.php:62-102 | one migration grows the table by at most the number of recordings the provider returns for the chunk's meetings |
| `UpgradeTask.MigratedRowsFromChunk` | classes/task/upgrade_recordings.php:76-102 | one run keeps the existing rows; each added row comes from a recording fetched for the chunk's meetings and from the last chunk log with that recording's meeting id |
| `UpgradeTask.GroupByLast` | classes/task/upgrade_recordings.php:62-73 | the overwriting loop builds exactly the last-write-wins grouping |
| `UpgradeTask.UpgradeRecordings.InsertRecordings` | classes/task/upgrade_recordings.php:83-102 | the insert loop leaves the logs alone and makes the recordings table `InsertCandidates` of the old one |
| `UpgradeTask.UpgradeRecordings.DeleteLogs` | classes/task/upgrade_recordings.php:104-110 | the delete loop removes exactly the rows with the chunk's ids, keeps the table invariant, and counts the chunk's rows |
| `UpgradeTask.UpgradeRecordings.ProcessLogs` | classes/task/upgrade_recordings.php:42-113 | one run deletes the chunk, migrates its recordings, and returns true exactly when the chunk has 10 rows |
| `UpgradeTask.UpgradeRecordings.Execute` | classes/task/upgrade_recordings.php:33-37 | re-queue exactly when at least 10 eligible logs were left; the eligible count drops by the chunk size; no re-queue means no eligible log is left |
| `GetRecordings.ResolveGroup` | classes/external/get_recordings.php:97-112 | with no group mode or no group asked for, the instance group is unchanged; otherwise the access error exactly when the group is not allowed, else the activity is scoped to it |
| `GetRecordings.AllowedGroups` | classes/external/get_recordings.php:99-104 | with access-all or visible groups, the allowed groups are all the course's; otherwise only the caller's |
| `GetRecordings.SeparateGroupsNeedMembership` | classes/external/get_recordings.php:99-105 | in separate-groups mode, a caller without access-all may ask only for their own groups |
| `GetRecordings.ToolList` | classes/external/get_recordings.php:117-120 | no tools given: exactly [protect, unprotect, publish, unpublish, delete]; otherwise at least one part, comma-free parts whose join is the input (so `""` gives `[""]`) |
| `GetRecordings.DefaultToolsSplit` | classes/external/get_recordings.php:117-120 | the default tools string splits into the five default tools in order |
| `GetRecordings.RemoveImported` | classes/external/get_recordings.php:142-160 | the nested loop keeps exactly `NotImported` of the listed recordings |
| `GetRecordings.NotImported` | classes/external/get_recordings.php:150-159 | the filter never adds recordings, and none it keeps shares a recordingid with the destination's |
| `GetRecordings.NotImportedSpec` | classes/external/get_recordings.php:150-159 | a recording is kept exactly when it was listed and its recordingid equals none of the destination's; nothing is removed when no id is shared |
| `GetRecordings.NotImportedAppend` | classes/external/get_recordings.php:152-159 | the filter distributes over concatenation, so the original order is kept |
| `GetRecordings.BuildRows` | classes/external/get_recordings.php:172-180 | the row loop produces exactly `RenderedRows` |
| `GetRecordings.RenderedRows` | classes/external/get_recordings.php:175-180 | at most one row per recording, and no empty row |
| `GetRecordings.RenderedRowsSpec` | classes/external/get_recordings.php:175-180 | the data is exactly the non-empty rendered rows, at most one per recording, in recording order |
| `GetRecordings.ColumnSchema` | classes/external/get_recordings.php:182-241 | keys in order: playback, recording, description, preview if enabled, date, duration, actionbar if the caller can manage; 5 to 7 columns; exactly description, date, duration sortable; only duration has allowHTML false |
| `GetRecordings.BuildColumns` | classes/external/get_recordings.php:182-243 | appending to the three fixed columns builds exactly the schema |
| `GetRecordings.Locale` | classes/external/get_recordings.php:161-166 | a prefix of the tag with no '.' or '_': the part before the first '_' when it precedes the first '.', and "" when the tag has no '.' or no '_' before it |
| `GetRecordings.LocaleOfUsEnglish` | classes/external/get_recordings.php:161-166 | "en_us.utf8" gives "en" |
| `GetRecordings.PingInterval` | classes/external/get_recordings.php:165 | the interval is a whole number of thousands, and dividing it by 1000 gives back the setting |
| `GetRecordings.Execute` | classes/external/get_recordings.php:96-252 | fails exactly when an asked-for group is not allowed; otherwise status true, no warnings, and a table built from the imported filter, rendered rows, schema, locale and ping interval |

## Left out

- Parameter description, validation, instance lookup and `validate_context`
  (get_recordings.php:45-94, 255-282) are platform plumbing. The model starts
  from the resolved activity, given as the `Context`.
- Recording retrieval depends on the `showroom` feature (get_recordings.php:125-141).
  It is done by the retrieval helpers and is not modelled. The retrieved list is an input.
- The destination instance lookup and its recordings (get_recordings.php:144-149)
  are inputs too: `importedRecordings` in the `Context`. A `removeimportedid`
  that names no instance is not modelled.
- `view_get_activity_status`, `get_instance_type_profiles`, `get_string` and
  `config::get` are inputs. PHP's `(int)` cast of the setting is not modelled.
- `GetRecordings.PingInterval`: does not model PHP's overflow of a large integer
  product into a float, because integers here are unbounded.
- The row data are kept as the sequence of rows. Its `json_encode` is not modelled.
- `unset` keeps the surviving recordings' array keys (their database ids). The
  model keeps their order but not those keys.
- Recording ids are compared with string equality, not PHP's loose `==`.
- `LIKE '%true%'` is modelled as a case-sensitive substring test, and
  `log = 'Create'` as exact string equality. Some database collations make
  both case-insensitive, and some ignore trailing spaces in the equality.
- The log table is held in the query's ORDER BY order; this is the class
  invariant of `UpgradeRecordings`. Meeting ids are ordered by character
  code, which may differ from a database collation.
- The headless flag is the outcome of an input function standing for
  `in_array` on the fetched instance records. Nothing says it reflects
  whether the instance exists.
- The provider fetch is an input function. It may only return recordings of
  the meetings asked about. Its pagination and its collapsing of repeated
  recording ids into one array key are not modelled.
- Inserted rows carry no auto-increment id.
- `mtrace` output is left out. So is the real adhoc-task queue; `Execute`
  returns the re-queue decision instead.
- Two runs racing on the same rows and a crash part-way through a run are not
  modelled; each run is one atomic step.
