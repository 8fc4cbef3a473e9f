/**
 * `_build_rotation_stats`: folds the assignment log, inside a rolling window,
 * into per (employee, station) statistics.
 *
 * The clock and the date parser are parameters: `today` is the current day as a
 * day number, `cutoff` is the text of the day `rolling_window_days` before it
 * (formatted "YYYY-MM-DD", as the source compares it), and `parse` stands for
 * `strptime(..., "%Y-%m-%d")`, giving a day number or `None` for a date that does
 * not parse.
 */
module Rotation {
  import opened Wrappers
  import opened Models
  import opened Lists

  type StatsKey = (Id, Id)
  type Stats = map<StatsKey, RotationStats>

  /** Python's `<` on `str`: by character code, a proper prefix being smaller. */
  function LexLess(a: string, b: string): bool
  {
    if a == [] then b != []
    else if b == [] then false
    else if a[0] != b[0] then a[0] < b[0]
    else LexLess(a[1..], b[1..])
  }

  lemma {:induction false} LexLessIrreflexive(a: string)
    ensures !LexLess(a, a)
  {
    if a != [] {
      LexLessIrreflexive(a[1..]);
    }
  }

  lemma {:induction false} LexLessAsymmetric(a: string, b: string)
    ensures !(LexLess(a, b) && LexLess(b, a))
  {
    if a != [] && b != [] && a[0] == b[0] {
      LexLessAsymmetric(a[1..], b[1..]);
    }
  }

  /** An entry is kept unless its date text sorts strictly before the cutoff text. */
  predicate InWindow(l: AssignmentLog, cutoff: string)
  {
    !LexLess(l.logDate, cutoff)
  }

  /** The lower bound of the window is inclusive: an entry dated exactly on the cutoff is kept. */
  lemma CutoffDayIsKept(l: AssignmentLog, cutoff: string)
    requires l.logDate == cutoff
    ensures InWindow(l, cutoff)
  {
    LexLessIrreflexive(cutoff);
  }

  function KeyOf(l: AssignmentLog): StatsKey
  {
    (l.employeeId, l.stationId)
  }

  /** One entry added to its pair's aggregate; an unparseable date leaves `days_since_last` alone. */
  function Accumulate(s: RotationStats, l: AssignmentLog, today: int, parse: string -> Option<int>): RotationStats
  {
    var days := match parse(l.logDate)
      case Some(d) => MinInt(s.daysSinceLast, today - d)
      case None => s.daysSinceLast;
    s.(totalHours := s.totalHours + l.hours, assignmentCount := s.assignmentCount + 1, daysSinceLast := days)
  }

  /** The statistics after the loop has seen every entry of `logs`, in order. */
  function StatsFold(logs: seq<AssignmentLog>, today: int, cutoff: string, parse: string -> Option<int>): Stats
  {
    if logs == [] then map[]
    else
      var prev := StatsFold(logs[..|logs| - 1], today, cutoff, parse);
      var l := logs[|logs| - 1];
      if !InWindow(l, cutoff) then prev
      else
        var k := KeyOf(l);
        var s := if k in prev then prev[k] else FreshRotationStats(l.employeeId, l.stationId);
        prev[k := Accumulate(s, l, today, parse)]
  }

  method BuildRotationStats(logs: seq<AssignmentLog>, today: int, cutoff: string, parse: string -> Option<int>)
    returns (stats: Stats)
    ensures stats == StatsFold(logs, today, cutoff, parse)
    ensures forall k :: k in stats ==> Window(logs, cutoff, k) != []
  {
    stats := map[];
    var i := 0;
    while i < |logs|
      invariant 0 <= i <= |logs|
      invariant stats == StatsFold(logs[..i], today, cutoff, parse)
    {
      var l := logs[i];
      assert logs[..i + 1][..i] == logs[..i];
      if !LexLess(l.logDate, cutoff) {
        var k := (l.employeeId, l.stationId);
        if k !in stats {
          stats := stats[k := FreshRotationStats(l.employeeId, l.stationId)];
        }
        var s := stats[k];
        s := s.(totalHours := s.totalHours + l.hours);
        s := s.(assignmentCount := s.assignmentCount + 1);
        match parse(l.logDate) {
          case Some(d) =>
            s := s.(daysSinceLast := MinInt(s.daysSinceLast, today - d));
          case None =>
        }
        stats := stats[k := s];
      }
      i := i + 1;
    }
    assert logs[..|logs|] == logs;
    forall k | k in stats ensures Window(logs, cutoff, k) != [] {
      StatsOfKey(logs, today, cutoff, parse, k);
    }
  }

  // ---------------------------------------------------------------------------
  // Reference definitions: what each aggregate is, one pair at a time.

  /** The entries of `logs` inside the window that belong to pair `k`, in log order. */
  function Window(logs: seq<AssignmentLog>, cutoff: string, k: StatsKey): seq<AssignmentLog>
  {
    if logs == [] then []
    else
      var l := logs[|logs| - 1];
      var rest := Window(logs[..|logs| - 1], cutoff, k);
      if InWindow(l, cutoff) && KeyOf(l) == k then rest + [l] else rest
  }

  function SumHours(w: seq<AssignmentLog>): real
  {
    if w == [] then 0.0 else SumHours(w[..|w| - 1]) + w[|w| - 1].hours
  }

  /** The smallest `today - date` over the entries whose date parses, or 999 when that is smaller or there is none. */
  function MinDays(w: seq<AssignmentLog>, today: int, parse: string -> Option<int>): int
  {
    if w == [] then NeverAssignedDays
    else
      var m := MinDays(w[..|w| - 1], today, parse);
      match parse(w[|w| - 1].logDate)
      case Some(d) => MinInt(m, today - d)
      case None => m
  }

  /**
   * Each pair's aggregate is exactly its window's: present only when the window has an
   * entry for it, its hours the sum of those entries' hours (unparseable dates included),
   * its count their number and its `days_since_last` the smallest gap among them.
   */
  lemma {:induction false} StatsOfKey(logs: seq<AssignmentLog>, today: int, cutoff: string,
                                      parse: string -> Option<int>, k: StatsKey)
    ensures k in StatsFold(logs, today, cutoff, parse) <==> Window(logs, cutoff, k) != []
    ensures k in StatsFold(logs, today, cutoff, parse) ==>
      var s := StatsFold(logs, today, cutoff, parse)[k];
      var w := Window(logs, cutoff, k);
      && s.employeeId == k.0 && s.stationId == k.1
      && s.totalHours == SumHours(w)
      && s.assignmentCount == |w|
      && s.daysSinceLast == MinDays(w, today, parse)
  {
    if logs != [] {
      var init := logs[..|logs| - 1];
      StatsOfKey(init, today, cutoff, parse, k);
      var w := Window(logs, cutoff, k);
      var w0 := Window(init, cutoff, k);
      var l := logs[|logs| - 1];
      if InWindow(l, cutoff) && KeyOf(l) == k {
        assert w == w0 + [l];
        assert w[..|w| - 1] == w0;
      }
    }
  }

  /** `MinDays` is a minimum: no more than 999, no more than any parsed gap, and one of them unless it is 999. */
  lemma {:induction false} MinDaysIsMinimum(w: seq<AssignmentLog>, today: int, parse: string -> Option<int>)
    ensures MinDays(w, today, parse) <= NeverAssignedDays
    ensures forall i :: 0 <= i < |w| && parse(w[i].logDate).Some? ==>
      MinDays(w, today, parse) <= today - parse(w[i].logDate).value
    ensures MinDays(w, today, parse) == NeverAssignedDays ||
      exists i :: 0 <= i < |w| && parse(w[i].logDate).Some? && MinDays(w, today, parse) == today - parse(w[i].logDate).value
  {
    if w != [] {
      var init := w[..|w| - 1];
      MinDaysIsMinimum(init, today, parse);
      var m := MinDays(w, today, parse);
      forall i | 0 <= i < |w| - 1 ensures w[i] == init[i] { }
      if m != NeverAssignedDays {
        if m == MinDays(init, today, parse) && m != NeverAssignedDays {
          var i :| 0 <= i < |init| && parse(init[i].logDate).Some? && m == today - parse(init[i].logDate).value;
          assert w[i] == init[i];
        } else {
          assert parse(w[|w| - 1].logDate).Some? && m == today - parse(w[|w| - 1].logDate).value;
        }
      }
    }
  }
}
