/**
 * "Finalize Day": the day's assignment logs are merged into the scheduler's log,
 * one entry per (date, employee, station). A log whose key is already there
 * replaces the first entry with that key, in place; any other log is appended.
 */
module Finalize {
  import opened Models
  import opened Lists
  import opened Snapshot
  import opened Engine

  /** The natural key of a log entry. */
  type LogKey = (string, Id, Id)

  function KeyOf(log: AssignmentLog): LogKey
  {
    (log.logDate, log.employeeId, log.stationId)
  }

  function KeysOf(logs: seq<AssignmentLog>): set<LogKey>
  {
    set l | l in logs :: KeyOf(l)
  }

  /** No two entries share a key. */
  predicate KeyDistinct(logs: seq<AssignmentLog>)
  {
    forall i, j :: 0 <= i < j < |logs| ==> KeyOf(logs[i]) != KeyOf(logs[j])
  }

  /** One new log merged in: it replaces the first entry with its key, or is appended when there is none. */
  function Upsert(logs: seq<AssignmentLog>, log: AssignmentLog): seq<AssignmentLog>
  {
    if logs == [] then [log]
    else if KeyOf(logs[0]) == KeyOf(log) then [log] + logs[1..]
    else [logs[0]] + Upsert(logs[1..], log)
  }

  /** The new logs merged in, in order. */
  function MergeAll(logs: seq<AssignmentLog>, news: seq<AssignmentLog>): seq<AssignmentLog>
  {
    if news == [] then logs
    else Upsert(MergeAll(logs, news[..|news| - 1]), news[|news| - 1])
  }

  // ---------------------------------------------------------------------------
  // One upsert

  lemma KeysSnoc(logs: seq<AssignmentLog>, log: AssignmentLog)
    ensures KeysOf(logs + [log]) == KeysOf(logs) + {KeyOf(log)}
  {
    assert forall l :: l in logs + [log] <==> l in logs || l == log;
  }

  lemma KeysCons(log: AssignmentLog, logs: seq<AssignmentLog>)
    ensures KeysOf([log] + logs) == {KeyOf(log)} + KeysOf(logs)
  {
    assert forall l :: l in [log] + logs <==> l == log || l in logs;
  }

  /** Upserting at the first index holding the key is writing that index. */
  lemma {:induction false} UpsertAt(logs: seq<AssignmentLog>, log: AssignmentLog, idx: nat)
    requires idx < |logs| && KeyOf(logs[idx]) == KeyOf(log)
    requires forall j :: 0 <= j < idx ==> KeyOf(logs[j]) != KeyOf(log)
    ensures Upsert(logs, log) == logs[idx := log]
  {
    if idx > 0 {
      assert KeyOf(logs[0]) != KeyOf(log);
      UpsertAt(logs[1..], log, idx - 1);
      assert [logs[0]] + logs[1..][idx - 1 := log] == logs[idx := log];
    }
  }

  /** Upserting a log whose key is nowhere is appending it. */
  lemma {:induction false} UpsertAppend(logs: seq<AssignmentLog>, log: AssignmentLog)
    requires KeyOf(log) !in KeysOf(logs)
    ensures Upsert(logs, log) == logs + [log]
  {
    if logs != [] {
      assert logs[0] in logs;
      assert KeysOf(logs[1..]) <= KeysOf(logs) by {
        forall l | l in logs[1..] ensures l in logs {
        }
      }
      UpsertAppend(logs[1..], log);
      assert logs == [logs[0]] + logs[1..];
    }
  }

  /** The first index holding a key that is there. */
  lemma FirstIndex(logs: seq<AssignmentLog>, key: LogKey) returns (idx: nat)
    requires key in KeysOf(logs)
    ensures idx < |logs| && KeyOf(logs[idx]) == key
    ensures forall j :: 0 <= j < idx ==> KeyOf(logs[j]) != key
  {
    var l :| l in logs && KeyOf(l) == key;
    var p :| 0 <= p < |logs| && logs[p] == l;
    idx := 0;
    while KeyOf(logs[idx]) != key
      invariant idx <= p
      invariant forall j :: 0 <= j < idx ==> KeyOf(logs[j]) != key
      decreases p - idx
    {
      idx := idx + 1;
    }
  }

  /** Writing a log over an entry with the same key keeps the keys and every entry with another key. */
  lemma WriteKeeps(logs: seq<AssignmentLog>, log: AssignmentLog, idx: nat)
    requires idx < |logs| && KeyOf(logs[idx]) == KeyOf(log)
    ensures KeysOf(logs[idx := log]) == KeysOf(logs)
    ensures log in logs[idx := log]
  {
    var r := logs[idx := log];
    assert r[idx] == log;
    forall k | k in KeysOf(r) ensures k in KeysOf(logs) {
      var x :| x in r && KeyOf(x) == k;
      var p :| 0 <= p < |r| && r[p] == x;
      assert logs[p] in logs;
    }
    forall k | k in KeysOf(logs) ensures k in KeysOf(r) {
      var x :| x in logs && KeyOf(x) == k;
      var p :| 0 <= p < |logs| && logs[p] == x;
      assert r[p] in r;
    }
  }

  /**
   * An upsert adds the new key and no other, grows the log by one entry exactly
   * when the key is new, and keeps every entry with another key at its index.
   */
  lemma UpsertKeys(logs: seq<AssignmentLog>, log: AssignmentLog)
    ensures KeysOf(Upsert(logs, log)) == KeysOf(logs) + {KeyOf(log)}
    ensures |Upsert(logs, log)| == |logs| + (if KeyOf(log) in KeysOf(logs) then 0 else 1)
    ensures log in Upsert(logs, log)
    ensures forall p :: 0 <= p < |logs| && KeyOf(logs[p]) != KeyOf(log) ==> Upsert(logs, log)[p] == logs[p]
  {
    if KeyOf(log) in KeysOf(logs) {
      var idx := FirstIndex(logs, KeyOf(log));
      UpsertAt(logs, log, idx);
      WriteKeeps(logs, log, idx);
    } else {
      UpsertAppend(logs, log);
      KeysSnoc(logs, log);
    }
  }

  /** An entry with another key survives an upsert. */
  lemma UpsertKeepsMember(logs: seq<AssignmentLog>, log: AssignmentLog, x: AssignmentLog)
    requires x in logs && KeyOf(x) != KeyOf(log)
    ensures x in Upsert(logs, log)
  {
    var p :| 0 <= p < |logs| && logs[p] == x;
    UpsertKeys(logs, log);
    assert Upsert(logs, log)[p] == x;
  }

  /** An upsert keeps keys distinct. */
  lemma UpsertDistinct(logs: seq<AssignmentLog>, log: AssignmentLog)
    requires KeyDistinct(logs)
    ensures KeyDistinct(Upsert(logs, log))
  {
    if KeyOf(log) in KeysOf(logs) {
      var idx := FirstIndex(logs, KeyOf(log));
      UpsertAt(logs, log, idx);
    } else {
      UpsertAppend(logs, log);
      var r := logs + [log];
      forall i, j | 0 <= i < j < |r| ensures KeyOf(r[i]) != KeyOf(r[j]) {
        if j == |logs| {
          assert r[i] in logs;
        }
      }
    }
  }

  /** Upserting an entry already in a log with distinct keys changes nothing. */
  lemma UpsertPresent(logs: seq<AssignmentLog>, log: AssignmentLog)
    requires KeyDistinct(logs) && log in logs
    ensures Upsert(logs, log) == logs
  {
    var p :| 0 <= p < |logs| && logs[p] == log;
    UpsertAt(logs, log, p);
    assert logs[p := log] == logs;
  }

  // ---------------------------------------------------------------------------
  // The whole merge

  lemma MergeSnoc(logs: seq<AssignmentLog>, news: seq<AssignmentLog>, i: nat)
    requires i < |news|
    ensures MergeAll(logs, news[..i + 1]) == Upsert(MergeAll(logs, news[..i]), news[i])
  {
    assert news[..i + 1][..i] == news[..i];
  }

  /** The merged log holds exactly the old keys and the new ones; with distinct old keys it has distinct keys. */
  lemma {:induction false} MergeKeys(logs: seq<AssignmentLog>, news: seq<AssignmentLog>)
    ensures KeysOf(MergeAll(logs, news)) == KeysOf(logs) + KeysOf(news)
    ensures KeyDistinct(logs) ==> KeyDistinct(MergeAll(logs, news))
  {
    if news != [] {
      var n := |news| - 1;
      MergeKeys(logs, news[..n]);
      UpsertKeys(MergeAll(logs, news[..n]), news[n]);
      if KeyDistinct(logs) {
        UpsertDistinct(MergeAll(logs, news[..n]), news[n]);
      }
      InitLast(news);
      KeysSnoc(news[..n], news[n]);
    }
  }

  /** An old entry whose key no new log has stays where it was. */
  lemma {:induction false} MergeKeepsOthers(logs: seq<AssignmentLog>, news: seq<AssignmentLog>, p: nat)
    requires p < |logs| && KeyOf(logs[p]) !in KeysOf(news)
    ensures |logs| <= |MergeAll(logs, news)| && MergeAll(logs, news)[p] == logs[p]
  {
    if news != [] {
      var n := |news| - 1;
      assert news[n] in news;
      assert KeysOf(news[..n]) <= KeysOf(news) by {
        forall l | l in news[..n] ensures l in news {
        }
      }
      MergeKeepsOthers(logs, news[..n], p);
      UpsertKeys(MergeAll(logs, news[..n]), news[n]);
    }
  }

  /** The last new log with a given key is the one the merged log keeps. */
  lemma {:induction false} MergeLastWins(logs: seq<AssignmentLog>, news: seq<AssignmentLog>, i: nat)
    requires i < |news|
    requires forall j :: i < j < |news| ==> KeyOf(news[j]) != KeyOf(news[i])
    ensures news[i] in MergeAll(logs, news)
  {
    var n := |news| - 1;
    if i == n {
      UpsertKeys(MergeAll(logs, news[..n]), news[n]);
    } else {
      assert forall j :: i < j < n ==> news[..n][j] == news[j];
      MergeLastWins(logs, news[..n], i);
      UpsertKeepsMember(MergeAll(logs, news[..n]), news[n], news[i]);
    }
  }

  /** Merging a log of entries that are all there already changes nothing. */
  lemma {:induction false} MergePresent(logs: seq<AssignmentLog>, news: seq<AssignmentLog>)
    requires KeyDistinct(logs) && forall j :: 0 <= j < |news| ==> news[j] in logs
    ensures MergeAll(logs, news) == logs
  {
    if news != [] {
      var n := |news| - 1;
      MergePresent(logs, news[..n]);
      UpsertPresent(logs, news[n]);
    }
  }

  /**
   * Finalizing the same day twice is finalizing it once: merging a batch with
   * distinct keys a second time changes nothing.
   */
  lemma MergeIdempotent(logs: seq<AssignmentLog>, news: seq<AssignmentLog>)
    requires KeyDistinct(logs) && KeyDistinct(news)
    ensures MergeAll(MergeAll(logs, news), news) == MergeAll(logs, news)
  {
    var m := MergeAll(logs, news);
    MergeKeys(logs, news);
    forall j | 0 <= j < |news| ensures news[j] in m {
      MergeLastWins(logs, news, j);
    }
    MergePresent(m, news);
  }

  // ---------------------------------------------------------------------------
  // The method

  /** The keys of the log, gathered by the first loop (`existing_keys`). */
  method ExistingKeys(logs: seq<AssignmentLog>) returns (keys: set<LogKey>)
    ensures keys == KeysOf(logs)
  {
    keys := {};
    for j := 0 to |logs|
      invariant keys == KeysOf(logs[..j])
    {
      KeysSnoc(logs[..j], logs[j]);
      assert logs[..j + 1] == logs[..j] + [logs[j]];
      keys := keys + {KeyOf(logs[j])};
    }
    assert logs[..|logs|] == logs;
  }

  /** The index the replacing loop stops at: the first entry with the key. */
  method FindFirst(logs: seq<AssignmentLog>, key: LogKey) returns (idx: nat)
    requires key in KeysOf(logs)
    ensures idx < |logs| && KeyOf(logs[idx]) == key
    ensures forall j :: 0 <= j < idx ==> KeyOf(logs[j]) != key
  {
    ghost var first := FirstIndex(logs, key);
    idx := 0;
    while KeyOf(logs[idx]) != key
      invariant idx <= first
      invariant forall j :: 0 <= j < idx ==> KeyOf(logs[j]) != key
      decreases first - idx
    {
      idx := idx + 1;
    }
  }

  /** The merge of "Finalize Day" into `scheduler.assignment_logs`. */
  method MergeLogs(s: Scheduler, newLogs: seq<AssignmentLog>)
    modifies s`logs
    ensures s.logs == MergeAll(old(s.logs), newLogs)
  {
    ghost var logs0 := s.logs;
    var existingKeys := ExistingKeys(s.logs);
    for i := 0 to |newLogs|
      invariant s.logs == MergeAll(logs0, newLogs[..i])
      invariant existingKeys == KeysOf(s.logs)
    {
      var log := newLogs[i];
      var key := KeyOf(log);
      MergeSnoc(logs0, newLogs, i);
      UpsertKeys(s.logs, log);
      if key in existingKeys {
        var idx := FindFirst(s.logs, key);
        UpsertAt(s.logs, log, idx);
        s.logs := s.logs[idx := log];
      } else {
        UpsertAppend(s.logs, log);
        s.logs := s.logs + [log];
        existingKeys := existingKeys + {key};
      }
    }
    assert newLogs[..|newLogs|] == newLogs;
  }
}
