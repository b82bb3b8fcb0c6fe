/**
 * The recordings table written by the migration task, and what one pass of
 * the task's insert loop makes of it: for each recording the provider
 * reports, a candidate row built from the log the meeting-id grouping holds
 * for its meeting, inserted only when no row with the same
 * (courseid, bigbluebuttonbnid, groupid, recordingid, status, imported)
 * already exists.
 */
module RecordingMigration {
  import opened LegacyLogs

  /** The status of a processed recording. */
  const STATUS_PROCESSED: int := 2

  /** One recording as the provider reports it: its id and its meeting. */
  datatype RemoteRecording = RemoteRecording(recordingid: string, meetingID: string)

  /** One row of the recordings table (its auto-increment id is not modelled). */
  datatype Recording = Recording(
    courseid: int,
    bigbluebuttonbnid: int,
    groupid: int,
    recordingid: string,
    status: int,
    imported: int,
    headless: int,
    importeddata: string,
    timecreated: int,
    timemodified: int)

  /** The six fields the existence check compares. */
  datatype RecordingKey = RecordingKey(
    courseid: int,
    bigbluebuttonbnid: int,
    groupid: int,
    recordingid: string,
    status: int,
    imported: int)

  function KeyOf(r: Recording): RecordingKey {
    RecordingKey(r.courseid, r.bigbluebuttonbnid, r.groupid, r.recordingid, r.status, r.imported)
  }

  /** count_records on the six key fields. */
  function CountMatching(table: seq<Recording>, k: RecordingKey): (n: nat)
    ensures n <= |table|
  {
    if |table| == 0 then 0
    else CountMatching(table[..|table| - 1], k) + (if KeyOf(table[|table| - 1]) == k then 1 else 0)
  }

  /** Some row of the table carries key k. */
  ghost predicate HasKey(table: seq<Recording>, k: RecordingKey) {
    exists j :: 0 <= j < |table| && KeyOf(table[j]) == k
  }

  /** Every recording the provider reported belongs to one of the grouped meetings. */
  predicate Correlated(fetched: seq<RemoteRecording>, byMeeting: map<string, LogEntry>) {
    forall r :: r in fetched ==> r.meetingID in byMeeting
  }

  /**
   * The row the task builds for recording r whose meeting was logged by rec;
   * listed is the outcome of the in_array test on rec's instance id.
   */
  function Candidate(rec: LogEntry, r: RemoteRecording, listed: bool): (row: Recording)
    ensures KeyOf(row) == CandidateKey(rec, r)
    ensures MigratedFrom(row, rec, r)
    ensures row.headless == 0 <==> listed
  {
    Recording(
      rec.courseid, rec.bigbluebuttonbnid, 0, r.recordingid, STATUS_PROCESSED, 0,
      if listed then 0 else 1, "", rec.timecreated, rec.timecreated)
  }

  /** The key the existence check looks for before inserting for r. */
  function CandidateKey(rec: LogEntry, r: RemoteRecording): RecordingKey {
    RecordingKey(rec.courseid, rec.bigbluebuttonbnid, 0, r.recordingid, STATUS_PROCESSED, 0)
  }

  /**
   * The recordings table after the insert loop has handled every recording
   * of fetched, in order. instancesHave(instanceIds, id) is the task's
   * in_array test of id against the instance records fetched for
   * instanceIds.
   */
  function InsertCandidates(
    table: seq<Recording>,
    fetched: seq<RemoteRecording>,
    byMeeting: map<string, LogEntry>,
    instanceIds: set<int>,
    instancesHave: (set<int>, int) -> bool): (after: seq<Recording>)
    requires Correlated(fetched, byMeeting)
    ensures |table| <= |after| <= |table| + |fetched|
  {
    if |fetched| == 0 then table
    else
      var before := InsertCandidates(table, fetched[..|fetched| - 1], byMeeting, instanceIds, instancesHave);
      var r := fetched[|fetched| - 1];
      var rec := byMeeting[r.meetingID];
      if CountMatching(before, CandidateKey(rec, r)) == 0 then
        before + [Candidate(rec, r, instancesHave(instanceIds, rec.bigbluebuttonbnid))]
      else before
  }

  /** row is what the task inserts for r, whose meeting was logged by rec. */
  ghost predicate MigratedFrom(row: Recording, rec: LogEntry, r: RemoteRecording) {
    && row.courseid == rec.courseid
    && row.bigbluebuttonbnid == rec.bigbluebuttonbnid
    && row.recordingid == r.recordingid
    && row.groupid == 0
    && row.status == STATUS_PROCESSED
    && row.imported == 0
    && (row.headless == 0 || row.headless == 1)
    && row.importeddata == ""
    && row.timecreated == rec.timecreated
    && row.timemodified == rec.timecreated
  }

  // ---------------------------------------------------------------------------

  /** The count is zero exactly when no row carries the key. */
  lemma {:induction false} CountZeroIff(table: seq<Recording>, k: RecordingKey)
    ensures CountMatching(table, k) == 0 <==> !HasKey(table, k)
  {
    if |table| > 0 {
      var init := table[..|table| - 1];
      CountZeroIff(init, k);
      if HasKey(init, k) {
        var j :| 0 <= j < |init| && KeyOf(init[j]) == k;
        assert KeyOf(table[j]) == k;
      }
      if HasKey(table, k) && KeyOf(table[|table| - 1]) != k {
        var j :| 0 <= j < |table| && KeyOf(table[j]) == k;
        assert KeyOf(init[j]) == k;
      }
    }
  }

  /**
   * Existing rows are never changed or removed, and the table grows by at
   * most one row per recording reported.
   */
  lemma {:induction false} InsertKeepsExisting(
    table: seq<Recording>, fetched: seq<RemoteRecording>, byMeeting: map<string, LogEntry>,
    instanceIds: set<int>, instancesHave: (set<int>, int) -> bool)
    requires Correlated(fetched, byMeeting)
    ensures var after := InsertCandidates(table, fetched, byMeeting, instanceIds, instancesHave);
      |table| <= |after| <= |table| + |fetched| && after[..|table|] == table
  {
    if |fetched| > 0 {
      InsertKeepsExisting(table, fetched[..|fetched| - 1], byMeeting, instanceIds, instancesHave);
    }
  }

  /**
   * Every row the pass adds was built for some reported recording r from the
   * log the meeting-id grouping holds for r's meeting: group 0, status 2,
   * not imported, no imported data, headless 0 or 1, and both timestamps
   * taken from that log.
   */
  lemma {:induction false} InsertedRowsShape(
    table: seq<Recording>, fetched: seq<RemoteRecording>, byMeeting: map<string, LogEntry>,
    instanceIds: set<int>, instancesHave: (set<int>, int) -> bool)
    requires Correlated(fetched, byMeeting)
    ensures var after := InsertCandidates(table, fetched, byMeeting, instanceIds, instancesHave);
      forall j :: |table| <= j < |after| ==>
        exists i :: 0 <= i < |fetched| && MigratedFrom(after[j], byMeeting[fetched[i].meetingID], fetched[i])
  {
    if |fetched| > 0 {
      var init := fetched[..|fetched| - 1];
      assert Correlated(init, byMeeting);
      InsertedRowsShape(table, init, byMeeting, instanceIds, instancesHave);
      InsertKeepsExisting(table, init, byMeeting, instanceIds, instancesHave);
      var before := InsertCandidates(table, init, byMeeting, instanceIds, instancesHave);
      var after := InsertCandidates(table, fetched, byMeeting, instanceIds, instancesHave);
      forall j | |table| <= j < |after|
        ensures exists i :: 0 <= i < |fetched| && MigratedFrom(after[j], byMeeting[fetched[i].meetingID], fetched[i])
      {
        if j < |before| {
          var i :| 0 <= i < |init| && MigratedFrom(before[j], byMeeting[init[i].meetingID], init[i]);
          assert fetched[i] == init[i];
        } else {
          assert MigratedFrom(after[j], byMeeting[fetched[|fetched| - 1].meetingID], fetched[|fetched| - 1]);
        }
      }
    }
  }

  /**
   * The pass never creates a duplicate: each row it adds carries a key that
   * no earlier row of the table carries.
   */
  lemma {:induction false} InsertedKeysFresh(
    table: seq<Recording>, fetched: seq<RemoteRecording>, byMeeting: map<string, LogEntry>,
    instanceIds: set<int>, instancesHave: (set<int>, int) -> bool)
    requires Correlated(fetched, byMeeting)
    ensures var after := InsertCandidates(table, fetched, byMeeting, instanceIds, instancesHave);
      forall i, j :: 0 <= i < j < |after| && |table| <= j ==> KeyOf(after[i]) != KeyOf(after[j])
  {
    if |fetched| > 0 {
      var init := fetched[..|fetched| - 1];
      assert Correlated(init, byMeeting);
      InsertedKeysFresh(table, init, byMeeting, instanceIds, instancesHave);
      InsertKeepsExisting(table, init, byMeeting, instanceIds, instancesHave);
      var before := InsertCandidates(table, init, byMeeting, instanceIds, instancesHave);
      var after := InsertCandidates(table, fetched, byMeeting, instanceIds, instancesHave);
      if |after| > |before| {
        var k := KeyOf(after[|after| - 1]);
        CountZeroIff(before, k);
        forall i | 0 <= i < |before| ensures KeyOf(after[i]) != k {
          assert after[i] == before[i];
        }
      }
    }
  }

  /** After the pass, every reported recording has a row with its candidate key. */
  lemma {:induction false} AllCandidatesPresent(
    table: seq<Recording>, fetched: seq<RemoteRecording>, byMeeting: map<string, LogEntry>,
    instanceIds: set<int>, instancesHave: (set<int>, int) -> bool)
    requires Correlated(fetched, byMeeting)
    ensures var after := InsertCandidates(table, fetched, byMeeting, instanceIds, instancesHave);
      forall r :: r in fetched ==> HasKey(after, CandidateKey(byMeeting[r.meetingID], r))
  {
    if |fetched| > 0 {
      var init := fetched[..|fetched| - 1];
      var last := fetched[|fetched| - 1];
      assert Correlated(init, byMeeting);
      AllCandidatesPresent(table, init, byMeeting, instanceIds, instancesHave);
      var before := InsertCandidates(table, init, byMeeting, instanceIds, instancesHave);
      var after := InsertCandidates(table, fetched, byMeeting, instanceIds, instancesHave);
      var k := CandidateKey(byMeeting[last.meetingID], last);
      CountZeroIff(before, k);
      assert after[..|before|] == before;
      forall r | r in fetched ensures HasKey(after, CandidateKey(byMeeting[r.meetingID], r)) {
        if r in init {
          var j :| 0 <= j < |before| && KeyOf(before[j]) == CandidateKey(byMeeting[r.meetingID], r);
          assert KeyOf(after[j]) == KeyOf(before[j]);
        } else {
          assert r == last;
          if |after| > |before| {
            assert KeyOf(after[|before|]) == k;
          } else {
            var j :| 0 <= j < |before| && KeyOf(before[j]) == k;
            assert KeyOf(after[j]) == k;
          }
        }
      }
    }
  }

  /** When every candidate key already has a row, the pass inserts nothing. */
  lemma {:induction false} NothingNewToInsert(
    table: seq<Recording>, fetched: seq<RemoteRecording>, byMeeting: map<string, LogEntry>,
    instanceIds: set<int>, instancesHave: (set<int>, int) -> bool)
    requires Correlated(fetched, byMeeting)
    requires forall r :: r in fetched ==> HasKey(table, CandidateKey(byMeeting[r.meetingID], r))
    ensures InsertCandidates(table, fetched, byMeeting, instanceIds, instancesHave) == table
  {
    if |fetched| > 0 {
      var init := fetched[..|fetched| - 1];
      var last := fetched[|fetched| - 1];
      assert Correlated(init, byMeeting);
      NothingNewToInsert(table, init, byMeeting, instanceIds, instancesHave);
      CountZeroIff(table, CandidateKey(byMeeting[last.meetingID], last));
    }
  }

  /**
   * Idempotence: running the pass a second time over the same logs and the
   * same provider answer inserts nothing new.
   */
  lemma InsertIdempotent(
    table: seq<Recording>, fetched: seq<RemoteRecording>, byMeeting: map<string, LogEntry>,
    instanceIds: set<int>, instancesHave: (set<int>, int) -> bool)
    requires Correlated(fetched, byMeeting)
    ensures var once := InsertCandidates(table, fetched, byMeeting, instanceIds, instancesHave);
      InsertCandidates(once, fetched, byMeeting, instanceIds, instancesHave) == once
  {
    AllCandidatesPresent(table, fetched, byMeeting, instanceIds, instancesHave);
    var once := InsertCandidates(table, fetched, byMeeting, instanceIds, instancesHave);
    NothingNewToInsert(once, fetched, byMeeting, instanceIds, instancesHave);
  }
}
