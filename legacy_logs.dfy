/**
 * The legacy log table read by the recording migration task: which rows are
 * eligible, which of them one run takes (its chunk), the two last-write-wins
 * groupings of a chunk, and what deleting the chunk by id leaves behind.
 */
module LegacyLogs {
  import opened PhpStrings

  /** The number of log rows one migration run takes at most. */
  const CHUNK_SIZE: nat := 10

  /** One row of the legacy log table. */
  datatype LogEntry = LogEntry(
    id: int,
    courseid: int,
    bigbluebuttonbnid: int,
    meetingid: string,
    log: string,
    meta: string,
    timecreated: int)

  /** A "Create" row whose metadata mentions "true" (recording was enabled). */
  predicate Eligible(l: LogEntry) {
    l.log == "Create" && Contains(l.meta, "true")
  }

  /** Strict lexicographic order on strings (character codes). */
  predicate StrLt(a: string, b: string) {
    if |b| == 0 then false
    else if |a| == 0 then true
    else a[0] < b[0] || (a[0] == b[0] && StrLt(a[1..], b[1..]))
  }

  /** a comes no later than b in (courseid, bigbluebuttonbnid, meetingid, timecreated) order. */
  predicate KeyLe(a: LogEntry, b: LogEntry) {
    a.courseid < b.courseid
    || (a.courseid == b.courseid
        && (a.bigbluebuttonbnid < b.bigbluebuttonbnid
            || (a.bigbluebuttonbnid == b.bigbluebuttonbnid
                && (StrLt(a.meetingid, b.meetingid)
                    || (a.meetingid == b.meetingid && a.timecreated <= b.timecreated)))))
  }

  /** The table is held in the order the selection query sorts by. */
  ghost predicate SortedByKey(s: seq<LogEntry>) {
    forall i, j :: 0 <= i < j < |s| ==> KeyLe(s[i], s[j])
  }

  /** No two rows share an id (the table's primary key). */
  ghost predicate DistinctIds(s: seq<LogEntry>) {
    forall i, j :: 0 <= i < j < |s| ==> s[i].id != s[j].id
  }

  /** The ids of a sequence of rows. */
  function IdsOf(s: seq<LogEntry>): set<int> {
    set l | l in s :: l.id
  }

  /** The meeting ids of a sequence of rows. */
  function MeetingIds(s: seq<LogEntry>): set<string> {
    set l | l in s :: l.meetingid
  }

  /** The eligible rows of the table, in table order. */
  function EligibleLogs(s: seq<LogEntry>): (r: seq<LogEntry>)
    ensures |r| <= |s|
    ensures forall l :: l in r ==> Eligible(l)
  {
    if |s| == 0 then []
    else if Eligible(s[0]) then [s[0]] + EligibleLogs(s[1..])
    else EligibleLogs(s[1..])
  }

  /** What one run selects: the first CHUNK_SIZE eligible rows. */
  function Chunk(s: seq<LogEntry>): (r: seq<LogEntry>)
    ensures |r| <= CHUNK_SIZE && |r| <= |s|
    ensures forall l :: l in r ==> Eligible(l)
  {
    var e := EligibleLogs(s);
    if |e| <= CHUNK_SIZE then e else e[..CHUNK_SIZE]
  }

  /** The table after deleting every row whose id is in ids. */
  function Without(s: seq<LogEntry>, ids: set<int>): (r: seq<LogEntry>)
    ensures |r| <= |s|
    ensures forall l :: l in r ==> l.id !in ids
  {
    if |s| == 0 then []
    else if s[0].id in ids then Without(s[1..], ids)
    else [s[0]] + Without(s[1..], ids)
  }

  function MeetingIdOf(l: LogEntry): string { l.meetingid }

  function InstanceIdOf(l: LogEntry): int { l.bigbluebuttonbnid }

  /**
   * The array built by assigning result[key(l)] := l for each l of s in
   * order: a later row overwrites an earlier one with the same key.
   */
  function LastByKey<K>(s: seq<LogEntry>, key: LogEntry -> K): (m: map<K, LogEntry>)
    ensures forall k :: k in m ==> key(m[k]) == k
  {
    if |s| == 0 then map[]
    else LastByKey(s[..|s| - 1], key)[key(s[|s| - 1]) := s[|s| - 1]]
  }

  /** s[i] is the last row of s whose key is k. */
  ghost predicate IsLastWith<K>(s: seq<LogEntry>, key: LogEntry -> K, k: K, i: int) {
    0 <= i < |s| && key(s[i]) == k && forall j :: i < j < |s| ==> key(s[j]) != k
  }

  // ---------------------------------------------------------------------------
  // Eligible rows and the chunk

  lemma {:induction false} EligibleLogsMembers(s: seq<LogEntry>)
    ensures forall l :: l in EligibleLogs(s) <==> l in s && Eligible(l)
    ensures |EligibleLogs(s)| <= |s|
  {
    if |s| > 0 {
      EligibleLogsMembers(s[1..]);
      assert s == [s[0]] + s[1..];
    }
  }

  lemma {:induction false} EligibleLogsSorted(s: seq<LogEntry>)
    requires SortedByKey(s)
    ensures SortedByKey(EligibleLogs(s))
  {
    if |s| > 0 {
      EligibleLogsSorted(s[1..]);
      EligibleLogsMembers(s[1..]);
      if Eligible(s[0]) {
        var e := EligibleLogs(s);
        forall j | 0 < j < |e| ensures KeyLe(e[0], e[j]) {
          assert e[j] in EligibleLogs(s[1..]);
          var k :| 0 <= k < |s[1..]| && s[1..][k] == e[j];
          assert s[k + 1] == e[j];
        }
      }
    }
  }

  /**
   * One run takes at most CHUNK_SIZE rows, all of them eligible rows of the
   * table; it takes the full CHUNK_SIZE exactly when that many are eligible;
   * and, the table being in key order, the rows it takes are in key order
   * and every eligible row it leaves behind comes after every row it takes.
   */
  lemma ChunkSelection(s: seq<LogEntry>)
    ensures |Chunk(s)| <= CHUNK_SIZE
    ensures forall l :: l in Chunk(s) ==> l in s && Eligible(l)
    ensures |Chunk(s)| == CHUNK_SIZE <==> |EligibleLogs(s)| >= CHUNK_SIZE
    ensures |Chunk(s)| < CHUNK_SIZE ==> Chunk(s) == EligibleLogs(s)
    ensures SortedByKey(s) ==> SortedByKey(Chunk(s))
    ensures SortedByKey(s) ==>
      forall c, l :: c in Chunk(s) && l in s && Eligible(l) && l !in Chunk(s) ==> KeyLe(c, l)
  {
    var e := EligibleLogs(s);
    EligibleLogsMembers(s);
    var c := Chunk(s);
    assert forall l :: l in c ==> l in e;
    if SortedByKey(s) {
      EligibleLogsSorted(s);
      forall x, l | x in c && l in s && Eligible(l) && l !in c ensures KeyLe(x, l) {
        var i :| 0 <= i < |c| && c[i] == x;
        var j :| 0 <= j < |e| && e[j] == l;
      }
    }
  }

  // ---------------------------------------------------------------------------
  // Deleting by id

  lemma {:induction false} WithoutMembers(s: seq<LogEntry>, ids: set<int>)
    ensures forall l :: l in Without(s, ids) <==> l in s && l.id !in ids
  {
    if |s| > 0 {
      WithoutMembers(s[1..], ids);
      assert s == [s[0]] + s[1..];
    }
  }

  lemma {:induction false} WithoutNothing(s: seq<LogEntry>)
    ensures Without(s, {}) == s
  {
    if |s| > 0 {
      WithoutNothing(s[1..]);
      assert s == [s[0]] + s[1..];
    }
  }

  /** Deleting the ids of A, then those of B, deletes the ids of A + B. */
  lemma {:induction false} WithoutTwice(s: seq<LogEntry>, a: set<int>, b: set<int>)
    ensures Without(Without(s, a), b) == Without(s, a + b)
  {
    if |s| > 0 {
      WithoutTwice(s[1..], a, b);
    }
  }

  /** Deleting ids no row carries changes nothing. */
  lemma {:induction false} WithoutIgnoresAbsent(s: seq<LogEntry>, ids: set<int>, x: int)
    requires x !in IdsOf(s)
    ensures Without(s, ids + {x}) == Without(s, ids)
  {
    if |s| > 0 {
      assert s[0] in s;
      assert IdsOf(s[1..]) <= IdsOf(s);
      WithoutIgnoresAbsent(s[1..], ids, x);
    }
  }

  /** Deletion keeps the table's key order and its distinct ids. */
  lemma {:induction false} WithoutKeepsOrder(s: seq<LogEntry>, ids: set<int>)
    ensures SortedByKey(s) ==> SortedByKey(Without(s, ids))
    ensures DistinctIds(s) ==> DistinctIds(Without(s, ids))
  {
    if |s| > 0 {
      WithoutKeepsOrder(s[1..], ids);
      WithoutMembers(s[1..], ids);
      var w := Without(s, ids);
      if s[0].id !in ids {
        forall j | 0 < j < |w| ensures w[j] in s[1..] {
          assert w[j] in Without(s[1..], ids);
        }
        if SortedByKey(s) {
          forall j | 0 < j < |w| ensures KeyLe(w[0], w[j]) {
            var k :| 0 <= k < |s[1..]| && s[1..][k] == w[j];
            assert s[k + 1] == w[j];
          }
        }
        if DistinctIds(s) {
          forall j | 0 < j < |w| ensures w[0].id != w[j].id {
            var k :| 0 <= k < |s[1..]| && s[1..][k] == w[j];
            assert s[k + 1] == w[j];
          }
        }
      }
    }
  }

  /**
   * After the rows of a chunk are deleted, none of them remains, every row
   * that was not taken is still there, and the table shrank by the chunk.
   */
  lemma DeletingChunk(s: seq<LogEntry>)
    requires DistinctIds(s)
    ensures forall l :: l in Chunk(s) ==> l !in Without(s, IdsOf(Chunk(s)))
    ensures forall l :: l in s && l !in Chunk(s) ==> l in Without(s, IdsOf(Chunk(s)))
    ensures |Without(s, IdsOf(Chunk(s)))| == |s| - |Chunk(s)|
  {
    var c := Chunk(s);
    ChunkSelection(s);
    WithoutMembers(s, IdsOf(c));
    forall l, m | l in s && l !in c && m in c ensures l.id != m.id {
      var i :| 0 <= i < |s| && s[i] == l;
      var j :| 0 <= j < |s| && s[j] == m;
      assert i != j;
    }
    assert c == EligibleLogs(s)[..|c|];
    DeletedCount(s, |c|);
  }

  /** Deleting the first k eligible rows removes exactly k rows. */
  lemma {:induction false} DeletedCount(s: seq<LogEntry>, k: nat)
    requires DistinctIds(s) && k <= |EligibleLogs(s)|
    ensures |Without(s, IdsOf(EligibleLogs(s)[..k]))| == |s| - k
  {
    if |s| > 0 {
      var rest := s[1..];
      assert DistinctIds(rest);
      NotInRest(s);
      EligibleLogsMembers(rest);
      if k == 0 {
        WithoutNothing(s);
        assert IdsOf(EligibleLogs(s)[..0]) == {};
      } else if Eligible(s[0]) {
        var ids := IdsOf(EligibleLogs(rest)[..k - 1]);
        assert EligibleLogs(s)[..k] == [s[0]] + EligibleLogs(rest)[..k - 1];
        assert IdsOf(EligibleLogs(s)[..k]) == ids + {s[0].id};
        WithoutIgnoresAbsent(rest, ids, s[0].id);
        DeletedCount(rest, k - 1);
      } else {
        var ids := IdsOf(EligibleLogs(rest)[..k]);
        assert s[0].id !in ids by {
          forall l | l in EligibleLogs(rest)[..k] ensures l.id != s[0].id {
            assert l in EligibleLogs(rest);
          }
        }
        DeletedCount(rest, k);
      }
    }
  }

  /** The first row's id is carried by no later row. */
  lemma NotInRest(s: seq<LogEntry>)
    requires |s| > 0 && DistinctIds(s)
    ensures s[0].id !in IdsOf(s[1..])
  {
  }

  /**
   * Deleting the first k eligible rows leaves exactly the remaining eligible
   * rows, in order, for the next run.
   */
  lemma {:induction false} ResumeAfter(s: seq<LogEntry>, k: nat)
    requires DistinctIds(s) && k <= |EligibleLogs(s)|
    ensures EligibleLogs(Without(s, IdsOf(EligibleLogs(s)[..k]))) == EligibleLogs(s)[k..]
  {
    if |s| > 0 {
      var rest := s[1..];
      assert DistinctIds(rest);
      NotInRest(s);
      EligibleLogsMembers(rest);
      if k == 0 {
        WithoutNothing(s);
        assert IdsOf(EligibleLogs(s)[..0]) == {};
      } else if Eligible(s[0]) {
        var ids := IdsOf(EligibleLogs(rest)[..k - 1]);
        assert EligibleLogs(s)[..k] == [s[0]] + EligibleLogs(rest)[..k - 1];
        assert IdsOf(EligibleLogs(s)[..k]) == ids + {s[0].id};
        WithoutIgnoresAbsent(rest, ids, s[0].id);
        assert Without(s, ids + {s[0].id}) == Without(rest, ids);
        ResumeAfter(rest, k - 1);
      } else {
        var ids := IdsOf(EligibleLogs(rest)[..k]);
        assert s[0].id !in ids by {
          forall l | l in EligibleLogs(rest)[..k] ensures l.id != s[0].id {
            assert l in EligibleLogs(rest);
          }
        }
        ResumeAfter(rest, k);
      }
    }
  }

  /**
   * Progress: after a run deletes its chunk, the next run sees the eligible
   * rows that followed it, so every full run moves CHUNK_SIZE rows forward.
   */
  lemma NextRunResumes(s: seq<LogEntry>)
    requires DistinctIds(s)
    ensures EligibleLogs(Without(s, IdsOf(Chunk(s)))) == EligibleLogs(s)[|Chunk(s)|..]
    ensures |EligibleLogs(Without(s, IdsOf(Chunk(s))))| == |EligibleLogs(s)| - |Chunk(s)|
    ensures |Chunk(s)| < CHUNK_SIZE ==> EligibleLogs(Without(s, IdsOf(Chunk(s)))) == []
  {
    var e := EligibleLogs(s);
    var k := |Chunk(s)|;
    assert Chunk(s) == e[..k];
    ResumeAfter(s, k);
  }

  // ---------------------------------------------------------------------------
  // Last-write-wins grouping

  /**
   * The grouping holds one entry per key occurring in s, and the entry for a
   * key is the last row of s carrying it.
   */
  lemma {:induction false} LastWriteWins<K>(s: seq<LogEntry>, key: LogEntry -> K)
    ensures LastByKey(s, key).Keys == set l | l in s :: key(l)
    ensures forall k :: k in LastByKey(s, key) ==>
      exists i :: IsLastWith(s, key, k, i) && LastByKey(s, key)[k] == s[i]
  {
    if |s| > 0 {
      var init := s[..|s| - 1];
      var last := s[|s| - 1];
      LastWriteWins(init, key);
      assert s == init + [last];
      var m := LastByKey(s, key);
      forall k | k in m
        ensures exists i :: IsLastWith(s, key, k, i) && m[k] == s[i]
      {
        if k == key(last) {
          assert IsLastWith(s, key, k, |s| - 1);
        } else {
          var i :| IsLastWith(init, key, k, i) && LastByKey(init, key)[k] == init[i];
          assert IsLastWith(s, key, k, i);
        }
      }
    }
  }

  /** The meeting-id grouping of a chunk has exactly the chunk's meeting ids as keys. */
  lemma MeetingGroupKeys(s: seq<LogEntry>)
    ensures LastByKey(s, MeetingIdOf).Keys == MeetingIds(s)
  {
    LastWriteWins(s, MeetingIdOf);
  }
}
