/**
 * The adhoc task that converts legacy "Create" log rows into recording rows,
 * one bounded chunk per run, and queues itself again while runs take a full
 * chunk.
 */
module UpgradeTask {
  import opened LegacyLogs
  import opened RecordingMigration

  /**
   * The provider's answer for the meetings asked about: every recording it
   * returns belongs to one of them.
   */
  predicate AnswersOnly(fetched: seq<RemoteRecording>, meetingIds: set<string>) {
    forall r :: r in fetched ==> r.meetingID in meetingIds
  }

  /**
   * The recordings table after one run has handled chunk: the provider is
   * asked for the recordings of the chunk's meeting ids, and each is inserted
   * unless already present.
   */
  function MigrateChunk(
    table: seq<Recording>,
    chunk: seq<LogEntry>,
    fetchRecordings: set<string> -> seq<RemoteRecording>,
    instancesHave: (set<int>, int) -> bool): (after: seq<Recording>)
    requires AnswersOnly(fetchRecordings(MeetingIds(chunk)), MeetingIds(chunk))
    ensures |table| <= |after| <= |table| + |fetchRecordings(MeetingIds(chunk))|
  {
    var byMeeting := LastByKey(chunk, MeetingIdOf);
    MeetingGroupKeys(chunk);
    InsertCandidates(table, fetchRecordings(byMeeting.Keys), byMeeting,
                     LastByKey(chunk, InstanceIdOf).Keys, instancesHave)
  }

  /**
   * A run leaves every existing row as it was, adds at most one row per
   * reported recording, and each added row is built from the LAST log of the
   * chunk that carries the recording's meeting id.
   */
  lemma MigratedRowsFromChunk(
    table: seq<Recording>,
    chunk: seq<LogEntry>,
    fetchRecordings: set<string> -> seq<RemoteRecording>,
    instancesHave: (set<int>, int) -> bool)
    requires AnswersOnly(fetchRecordings(MeetingIds(chunk)), MeetingIds(chunk))
    ensures var after := MigrateChunk(table, chunk, fetchRecordings, instancesHave);
      && |table| <= |after| <= |table| + |fetchRecordings(MeetingIds(chunk))|
      && after[..|table|] == table
      && forall j :: |table| <= j < |after| ==>
           exists r, i ::
             r in fetchRecordings(MeetingIds(chunk)) && IsLastWith(chunk, MeetingIdOf, r.meetingID, i)
             && MigratedFrom(after[j], chunk[i], r)
  {
    var byMeeting := LastByKey(chunk, MeetingIdOf);
    MeetingGroupKeys(chunk);
    LastWriteWins(chunk, MeetingIdOf);
    var fetched := fetchRecordings(byMeeting.Keys);
    var instanceIds := LastByKey(chunk, InstanceIdOf).Keys;
    InsertKeepsExisting(table, fetched, byMeeting, instanceIds, instancesHave);
    InsertedRowsShape(table, fetched, byMeeting, instanceIds, instancesHave);
    var after := MigrateChunk(table, chunk, fetchRecordings, instancesHave);
    forall j | |table| <= j < |after|
      ensures exists r, i ::
        r in fetched && IsLastWith(chunk, MeetingIdOf, r.meetingID, i) && MigratedFrom(after[j], chunk[i], r)
    {
      var n :| 0 <= n < |fetched| && MigratedFrom(after[j], byMeeting[fetched[n].meetingID], fetched[n]);
      var r := fetched[n];
      var i :| IsLastWith(chunk, MeetingIdOf, r.meetingID, i) && byMeeting[r.meetingID] == chunk[i];
    }
  }

  /**
   * Builds the array keyed by key(l), each l of chunk overwriting what an
   * earlier row with the same key stored.
   */
  method GroupByLast<K>(chunk: seq<LogEntry>, key: LogEntry -> K) returns (m: map<K, LogEntry>)
    ensures m == LastByKey(chunk, key)
  {
    m := map[];
    for i := 0 to |chunk|
      invariant m == LastByKey(chunk[..i], key)
    {
      assert chunk[..i + 1][..i] == chunk[..i];
      m := m[key(chunk[i]) := chunk[i]];
    }
    assert chunk[..|chunk|] == chunk;
  }

  /** The task together with the two tables it reads and writes. */
  class UpgradeRecordings {
    /** The legacy log table, held in the order the selection query sorts by. */
    var logs: seq<LogEntry>
    /** The recordings table. */
    var recordings: seq<Recording>

    ghost predicate Valid()
      reads this
    {
      DistinctIds(logs) && SortedByKey(logs)
    }

    constructor (logs0: seq<LogEntry>, recordings0: seq<Recording>)
      requires DistinctIds(logs0) && SortedByKey(logs0)
      ensures Valid() && logs == logs0 && recordings == recordings0
    {
      logs := logs0;
      recordings := recordings0;
    }

    /**
     * The insert loop: for each reported recording, insert its candidate row
     * when count_records finds no row with the candidate key.
     */
    method InsertRecordings(
      fetched: seq<RemoteRecording>,
      byMeeting: map<string, LogEntry>,
      instanceIds: set<int>,
      instancesHave: (set<int>, int) -> bool)
      requires Correlated(fetched, byMeeting)
      modifies this
      ensures logs == old(logs)
      ensures recordings == InsertCandidates(old(recordings), fetched, byMeeting, instanceIds, instancesHave)
    {
      for i := 0 to |fetched|
        invariant logs == old(logs)
        invariant Correlated(fetched[..i], byMeeting)
        invariant recordings == InsertCandidates(old(recordings), fetched[..i], byMeeting, instanceIds, instancesHave)
      {
        assert fetched[..i + 1][..i] == fetched[..i];
        var r := fetched[i];
        var rec := byMeeting[r.meetingID];
        if CountMatching(recordings, CandidateKey(rec, r)) == 0 {
          var listed := instancesHave(instanceIds, rec.bigbluebuttonbnid);
          recordings := recordings + [Candidate(rec, r, listed)];
        }
      }
      assert fetched[..|fetched|] == fetched;
    }

    /** The delete loop: delete each row of chunk by id, counting the rows. */
    method DeleteLogs(chunk: seq<LogEntry>) returns (count: nat)
      requires Valid()
      modifies this
      ensures Valid()
      ensures logs == Without(old(logs), IdsOf(chunk))
      ensures recordings == old(recordings)
      ensures count == |chunk|
    {
      count := 0;
      WithoutNothing(logs);
      assert IdsOf(chunk[..0]) == {};
      for i := 0 to |chunk|
        invariant Valid()
        invariant logs == Without(old(logs), IdsOf(chunk[..i]))
        invariant recordings == old(recordings)
        invariant count == i
      {
        assert IdsOf(chunk[..i + 1]) == IdsOf(chunk[..i]) + {chunk[i].id};
        WithoutTwice(old(logs), IdsOf(chunk[..i]), {chunk[i].id});
        WithoutKeepsOrder(logs, {chunk[i].id});
        logs := Without(logs, {chunk[i].id});
        count := count + 1;
      }
      assert chunk[..|chunk|] == chunk;
    }

    /**
     * One run: select the chunk, group it by meeting id and by instance id,
     * insert the rows for the recordings the provider reports for the
     * chunk's meetings, delete every selected log, and report whether the
     * chunk was full.
     */
    method ProcessLogs(
      fetchRecordings: set<string> -> seq<RemoteRecording>,
      instancesHave: (set<int>, int) -> bool) returns (full: bool)
      requires Valid()
      requires AnswersOnly(fetchRecordings(MeetingIds(Chunk(logs))), MeetingIds(Chunk(logs)))
      modifies this
      ensures Valid()
      ensures logs == Without(old(logs), IdsOf(Chunk(old(logs))))
      ensures recordings == MigrateChunk(old(recordings), Chunk(old(logs)), fetchRecordings, instancesHave)
      ensures full <==> |Chunk(old(logs))| == CHUNK_SIZE
    {
      var chunk := Chunk(logs);
      var byMeeting := GroupByLast(chunk, MeetingIdOf);
      var byInstance := GroupByLast(chunk, InstanceIdOf);
      MeetingGroupKeys(chunk);
      var fetched := fetchRecordings(byMeeting.Keys);
      InsertRecordings(fetched, byMeeting, byInstance.Keys, instancesHave);
      var count := DeleteLogs(chunk);
      full := count == CHUNK_SIZE;
    }

    /**
     * The task's entry point: run once and ask to be queued again exactly
     * when the run took a full chunk, which happens exactly when at least
     * CHUNK_SIZE eligible logs were left. A run that does not re-queue leaves
     * no eligible log behind.
     */
    method Execute(
      fetchRecordings: set<string> -> seq<RemoteRecording>,
      instancesHave: (set<int>, int) -> bool) returns (requeue: bool)
      requires Valid()
      requires AnswersOnly(fetchRecordings(MeetingIds(Chunk(logs))), MeetingIds(Chunk(logs)))
      modifies this
      ensures Valid()
      ensures logs == Without(old(logs), IdsOf(Chunk(old(logs))))
      ensures recordings == MigrateChunk(old(recordings), Chunk(old(logs)), fetchRecordings, instancesHave)
      ensures requeue <==> |EligibleLogs(old(logs))| >= CHUNK_SIZE
      ensures |EligibleLogs(logs)| == |EligibleLogs(old(logs))| - |Chunk(old(logs))|
      ensures !requeue ==> EligibleLogs(logs) == []
    {
      ChunkSelection(logs);
      NextRunResumes(logs);
      requeue := ProcessLogs(fetchRecordings, instancesHave);
    }
  }
}
