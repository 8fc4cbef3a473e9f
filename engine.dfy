/**
 * `MatrixScheduler`: the assignment engine, as a class whose fields the
 * operations update in place. Each operation is proved to produce the outcomes
 * described in `Greedy`, `Rotation` and `Snapshot`.
 *
 * Operations that look employees up by the ids in `available` (as the source does,
 * which would raise `KeyError` otherwise) ask for `Valid()`.
 */
module Engine {
  import opened Wrappers
  import opened Models
  import opened Lists
  import opened Ranking
  import opened Rotation
  import opened Scoring
  import opened Greedy
  import opened Snapshot
  import opened Absence

  /** Stations are visited by required skill level, highest first. */
  function StationLevel(st: Station): Rank
  {
    Rank(st.requiredSkillLevel as real, 0.0)
  }

  /** `sorted(self.stations.values(), key=lambda s: s.required_skill_level, reverse=True)`. */
  function VisitOrder(order: seq<Id>, stations: map<Id, Station>): seq<Station>
    requires Elems(order) <= stations.Keys
  {
    SortByKey(ValuesAt(order, stations), StationLevel)
  }

  /** The statistics `generate_schedule` ranks by: none at all when the log is empty. */
  function RotationInput(logs: seq<AssignmentLog>, today: int, cutoff: string, parse: string -> Option<int>): Option<Stats>
  {
    if logs == [] then None else Some(StatsFold(logs, today, cutoff, parse))
  }

  /** Listing the stations in dictionary order lists each once, under its own id. */
  lemma StationsListed(order: seq<Id>, stations: map<Id, Station>)
    requires Distinct(order) && Elems(order) == stations.Keys
    requires forall k :: k in stations ==> stations[k].id == k
    ensures var s := ValuesAt(order, stations);
      && Distinct(s)
      && IdsOf(s) == stations.Keys
      && forall i :: 0 <= i < |s| ==> s[i].id in stations && stations[s[i].id] == s[i]
  {
    var s := ValuesAt(order, stations);
    forall i | 0 <= i < |s| ensures s[i].id == order[i] {
      assert order[i] in Elems(order);
    }
    forall k | k in stations ensures k in IdsOf(s) {
      var j :| 0 <= j < |order| && order[j] == k;
      assert s[j] in s;
    }
  }

  /** A reordering of stations listed once each under their own ids is again such a listing. */
  lemma PermutedStations(s: seq<Station>, v: seq<Station>, stations: map<Id, Station>)
    requires multiset(v) == multiset(s) && Distinct(s)
    requires forall i :: 0 <= i < |s| ==> s[i].id in stations && stations[s[i].id] == s[i]
    ensures DistinctIds(v) && IdsOf(v) == IdsOf(s)
    ensures forall i :: 0 <= i < |v| ==> v[i].id in stations && stations[v[i].id] == v[i]
  {
    assert forall x :: x in v <==> x in multiset(v);
    assert forall x :: x in s <==> x in multiset(s);
    forall i | 0 <= i < |v| ensures v[i].id in stations && stations[v[i].id] == v[i] {
      assert v[i] in multiset(v);
      assert v[i] in s;
      var j :| 0 <= j < |s| && s[j] == v[i];
    }
    DistinctPermutation(s, v);
  }

  /** The visit order holds every station once, each under its own id. */
  lemma VisitOrderCovers(order: seq<Id>, stations: map<Id, Station>)
    requires Distinct(order) && Elems(order) == stations.Keys
    requires forall k :: k in stations ==> stations[k].id == k
    ensures var v := VisitOrder(order, stations);
      && |v| == |order|
      && DistinctIds(v)
      && IdsOf(v) == stations.Keys
      && forall i :: 0 <= i < |v| ==> v[i].id in stations && stations[v[i].id] == v[i]
  {
    StationsListed(order, stations);
    PermutedStations(ValuesAt(order, stations), VisitOrder(order, stations), stations);
  }

  /**
   * Critical stations first: the visit order is by required skill level, highest
   * first, so a station with a strictly higher level is visited earlier; stations
   * of equal level keep their order in the stations dictionary.
   */
  lemma VisitOrderRanks(order: seq<Id>, stations: map<Id, Station>, level: int)
    requires Elems(order) <= stations.Keys
    ensures var v := VisitOrder(order, stations);
      && (forall i, j :: 0 <= i < j < |v| ==> v[i].requiredSkillLevel >= v[j].requiredSkillLevel)
      && (forall i, j :: 0 <= i < |v| && 0 <= j < |v| && v[i].requiredSkillLevel > v[j].requiredSkillLevel ==> i < j)
      && WithKey(v, StationLevel, Rank(level as real, 0.0)) == WithKey(ValuesAt(order, stations), StationLevel, Rank(level as real, 0.0))
  {
    var v := VisitOrder(order, stations);
    SortSorted(ValuesAt(order, stations), StationLevel);
    SortStable(ValuesAt(order, stations), StationLevel, Rank(level as real, 0.0));
  }

  /** One entry of `get_schedule_summary`. */
  datatype SummaryRow = SummaryRow(stationName: string, assignedIds: seq<Id>, required: int, filled: int, status: string)

  /** The summary entry of station `st` with assignment `a`. */
  function RowOf(st: Station, a: Assignment): SummaryRow
  {
    SummaryRow(st.name, a.assignedEmployeeIds, st.requiredHeadcount, |a.assignedEmployeeIds|,
               if a.isFullyStaffed then "fully_staffed" else "unfilled")
  }

  /** For a kept assignment, the summary says "fully_staffed" exactly when the filled count meets the required one. */
  lemma RowStatusAgrees(st: Station, a: Assignment)
    requires Bookkept(st, a)
    ensures RowOf(st, a).status == "fully_staffed" <==> RowOf(st, a).filled == RowOf(st, a).required
    ensures RowOf(st, a).status == "fully_staffed" || RowOf(st, a).status == "unfilled"
  {
  }

  class Scheduler {
    var stations: map<Id, Station>
    /** The insertion order of the stations dictionary. */
    var stationOrder: seq<Id>
    var employees: map<Id, Employee>
    var assignments: map<Id, Assignment>
    var available: set<Id>
    var absent: set<Id>
    var logs: seq<AssignmentLog>
    var scenario: ScenarioWeights

    function Contents(): State
      reads this
    {
      State(stations, stationOrder, employees, assignments, available, absent, logs, scenario)
    }

    predicate Valid()
      reads this
    {
      WellFormed(Contents())
    }

    /** `MatrixScheduler(stations, employees)`: everyone available, nobody absent, nothing assigned, Balanced. */
    constructor (ss: seq<Station>, es: seq<Employee>)
      ensures Contents() == State(ToMap(ss, StationIdOf), KeyOrder(ss, StationIdOf), ToMap(es, EmployeeIdOf),
                                  map[], ToMap(es, EmployeeIdOf).Keys, {}, [], Balanced)
      ensures Valid()
    {
      stations := ToMap(ss, StationIdOf);
      stationOrder := KeyOrder(ss, StationIdOf);
      employees := ToMap(es, EmployeeIdOf);
      assignments := map[];
      available := ToMap(es, EmployeeIdOf).Keys;
      absent := {};
      logs := [];
      scenario := Balanced;
    }

    /** `is_qualified`: false for an unknown employee or station, otherwise both thresholds are met. */
    function IsQualified(employeeId: Id, stationId: Id): (r: bool)
      reads this
      ensures r ==> employeeId in employees && stationId in stations
      ensures Valid() && stationId in stations ==>
        (r <==> employeeId in QualifiedAmong(employees.Keys, employees, stations[stationId]))
    {
      if employeeId !in employees || stationId !in stations then false
      else
        var e := employees[employeeId];
        var st := stations[stationId];
        e.certificationLevel >= st.requiredCertification && GetCompetency(e, stationId) >= st.requiredSkillLevel
    }

    /**
     * `_get_qualified_employees`: every available employee qualified for `st`, ranked
     * by priority when statistics are given, otherwise by (certification, competency),
     * both descending. Candidates are visited in the set's unspecified order, so
     * candidates with equal keys may come in any order.
     */
    method GetQualifiedEmployees(st: Station, stats: Option<Stats>) returns (q: seq<Id>)
      requires available <= employees.Keys
      ensures Ranked(q, QualifiedAmong(available, employees, st), KeyFn(employees, st, stats, scenario))
    {
      var pool := available;
      ghost var seen: set<Id> := {};
      var qualified: seq<Id> := [];
      while pool != {}
        invariant seen + pool == available && seen !! pool
        invariant Distinct(qualified)
        invariant Elems(qualified) == QualifiedAmong(seen, employees, st)
        decreases |pool|
      {
        var id :| id in pool;
        var employee := employees[id];
        var competency := GetCompetency(employee, st.id);
        var meetsCertification := employee.certificationLevel >= st.requiredCertification;
        var meetsCompetency := competency >= st.requiredSkillLevel;
        assert id !in Elems(qualified);
        if meetsCertification && meetsCompetency {
          DistinctSnoc(qualified, id);
          qualified := qualified + [id];
        }
        QualifiedAmongAdd(seen, id, employees, st);
        MoveOne(seen, pool, available, id);
        pool := pool - {id};
        seen := seen + {id};
      }
      var key := KeyFn(employees, st, stats, scenario);
      q := SortByKey(qualified, key);
      SortRanks(qualified, key);
    }

    /**
     * The body of `generate_schedule`'s station loop: the first `headcount` of the
     * ranked candidates (all of them if fewer) are appended one by one and each is
     * discarded from the available set; then the slot bookkeeping is set.
     */
    method StaffStation(station: Station, rotationStats: Option<Stats>,
                        ghost pool: set<Id>, ghost emps: map<Id, Employee>, ghost w: ScenarioWeights)
      returns (assignment: Assignment)
      requires pool == available && emps == employees && w == scenario
      requires available <= employees.Keys
      modifies this`available
      ensures StationFilled(station, pool, emps, rotationStats, w, assignment)
      ensures available == pool - Elems(assignment.assignedEmployeeIds)
    {
      assignment := EmptyAssignment(station.id);
      var qualified := GetQualifiedEmployees(station, rotationStats);
      var slotsToFill := station.requiredHeadcount;
      var j := 0;
      while j < |qualified|
        invariant 0 <= j <= |qualified| && j <= MaxInt(station.requiredHeadcount, 0)
        invariant slotsToFill == station.requiredHeadcount - j
        invariant assignment == EmptyAssignment(station.id).(assignedEmployeeIds := qualified[..j])
        invariant available == old(available) - Elems(qualified[..j])
      {
        if slotsToFill <= 0 {
          break;
        }
        PrefixSnoc(qualified, j);
        DistinctSnoc(qualified[..j], qualified[j]);
        assignment := assignment.(assignedEmployeeIds := assignment.assignedEmployeeIds + [qualified[j]]);
        available := available - {qualified[j]};
        slotsToFill := slotsToFill - 1;
        j := j + 1;
      }
      var filled := |assignment.assignedEmployeeIds|;
      assignment := assignment.(unfilledSlots := station.requiredHeadcount - filled);
      assignment := assignment.(isFullyStaffed := assignment.unfilledSlots == 0);
      PrefixIsTopPick(qualified, QualifiedAmong(old(available), employees, station), station.requiredHeadcount,
                      KeyFn(employees, station, rotationStats, scenario));
    }

    /**
     * One turn of `generate_schedule`'s station loop: station `i` of `order` is
     * staffed from those present that stations `0..i` left, which extends the
     * greedy pass by that station.
     */
    method StaffNext(order: seq<Station>, i: nat, rotationStats: Option<Stats>,
                     ghost present: set<Id>, ghost emps: map<Id, Employee>, ghost w: ScenarioWeights,
                     ghost asg: map<Id, Assignment>)
      returns (assignment: Assignment)
      requires i < |order| && DistinctIds(order)
      requires emps == employees && w == scenario && present <= employees.Keys
      requires assignments == asg && asg.Keys == IdsOf(order[..i])
      requires GreedySchedule(order[..i], present, emps, rotationStats, w, asg)
      requires available == present - TakenBy(order[..i], asg)
      modifies this`assignments, this`available
      ensures assignments == asg[order[i].id := assignment] && assignments.Keys == IdsOf(order[..i + 1])
      ensures GreedySchedule(order[..i + 1], present, emps, rotationStats, w, assignments)
      ensures available == present - TakenBy(order[..i + 1], assignments)
    {
      assignment := StaffStation(order[i], rotationStats, present - TakenBy(order[..i], asg), emps, w);
      GreedyStep(order, i, present, emps, rotationStats, w, asg, assignment);
      assignments := assignments[order[i].id := assignment];
    }

    /**
     * The station loop of `generate_schedule`: starting with no assignments and
     * everyone present available, staffs the stations of `order` one after another.
     */
    method StaffInOrder(order: seq<Station>, rotationStats: Option<Stats>)
      requires DistinctIds(order)
      requires assignments == map[] && available == employees.Keys - absent
      modifies this`assignments, this`available
      ensures assignments.Keys == IdsOf(order)
      ensures forall k :: k in assignments ==> assignments[k].stationId == k
      ensures GreedySchedule(order, employees.Keys - absent, employees, rotationStats, scenario, assignments)
      ensures available == (employees.Keys - absent) - AssignedIds(assignments)
    {
      ghost var present, emps, w := employees.Keys - absent, employees, scenario;
      GreedyStart(order, present, emps, rotationStats, w);
      var i := 0;
      while i < |order|
        invariant 0 <= i <= |order|
        invariant assignments.Keys == IdsOf(order[..i])
        invariant GreedySchedule(order[..i], present, emps, rotationStats, w, assignments)
        invariant available == present - TakenBy(order[..i], assignments)
      {
        var _ := StaffNext(order, i, rotationStats, present, emps, w, assignments);
        i := i + 1;
      }
      GreedyComplete(order, present, emps, rotationStats, w, assignments, available);
    }

    /** Visits the stations in `VisitOrder`, highest required skill level first, and staffs each. */
    method StaffVisitOrder(rotationStats: Option<Stats>)
      requires Distinct(stationOrder) && Elems(stationOrder) == stations.Keys
      requires forall k :: k in stations ==> stations[k].id == k
      requires assignments == map[] && available == employees.Keys - absent
      modifies this`assignments, this`available
      ensures assignments.Keys == stations.Keys
      ensures forall k :: k in assignments ==> k in stations && assignments[k].stationId == k
      ensures GreedySchedule(VisitOrder(stationOrder, stations), employees.Keys - absent, employees,
                             rotationStats, scenario, assignments)
      ensures available == (employees.Keys - absent) - AssignedIds(assignments)
    {
      var sortedStations := SortByKey(ValuesAt(stationOrder, stations), StationLevel);
      VisitOrderCovers(stationOrder, stations);
      StaffInOrder(sortedStations, rotationStats);
    }

    /**
     * `generate_schedule`: starts from no assignments and everyone present available,
     * visits the stations by required skill level (highest first, ties in dictionary
     * order) and gives each the best-ranked qualified candidates still available, as
     * many as its headcount asks, taking them out of the available set at once.
     * Rotation statistics are used for ranking only when the log is not empty.
     */
    method GenerateSchedule(sc: Option<ScenarioWeights>, today: int, cutoff: string, parse: string -> Option<int>)
      returns (r: map<Id, Assignment>)
      requires Valid()
      modifies this
      ensures Valid()
      ensures stations == old(stations) && stationOrder == old(stationOrder) && employees == old(employees)
      ensures absent == old(absent) && logs == old(logs)
      ensures scenario == if sc.Some? then sc.value else old(scenario)
      ensures assignments.Keys == stations.Keys
      ensures GreedySchedule(VisitOrder(stationOrder, stations), employees.Keys - absent, employees,
                             RotationInput(logs, today, cutoff, parse), scenario, assignments)
      ensures available == (employees.Keys - absent) - AssignedIds(assignments)
      ensures r == assignments
    {
      if sc.Some? {
        scenario := sc.value;
      }
      assignments := map[];
      available := employees.Keys - absent;
      var rotationStats: Option<Stats> := None;
      if |logs| > 0 {
        var built := BuildRotationStats(logs, today, cutoff, parse);
        rotationStats := Some(built);
      }
      StaffVisitOrder(rotationStats);
      WellFormedReassigned(old(Contents()), assignments, available, scenario);
      assert Contents() == old(Contents()).(assignments := assignments, available := available, scenario := scenario);
      r := assignments;
    }

    /**
     * The slot-filling loop of `rebalance_schedule`: while slots are open, the best
     * qualified available candidate by the fallback ranking (no statistics) is
     * appended and taken out of the available set; the loop stops early when nobody
     * qualified is left.
     */
    method RefillSlots(st: Station, a: Assignment, ghost pool: set<Id>) returns (b: Assignment, ghost added: seq<Id>)
      requires pool == available && available <= employees.Keys
      modifies this`available
      ensures Refill(added, a.unfilledSlots, pool, employees, st, scenario)
      ensures b == Refilled(a, added)
      ensures available == pool - Elems(added)
    {
      b := a;
      added := [];
      while b.unfilledSlots > 0
        invariant RefillSoFar(added, pool, employees, st, scenario)
        invariant b == a.(assignedEmployeeIds := a.assignedEmployeeIds + added, unfilledSlots := a.unfilledSlots - |added|)
        invariant a.unfilledSlots <= 0 ==> added == []
        invariant a.unfilledSlots > 0 ==> |added| <= a.unfilledSlots
        invariant available == pool - Elems(added)
        decreases b.unfilledSlots
      {
        var qualified := GetQualifiedEmployees(st, None);
        if qualified == [] {
          break;
        }
        var empId := qualified[0];
        RefillStep(added, pool, employees, st, scenario, qualified);
        b := b.(assignedEmployeeIds := b.assignedEmployeeIds + [empId]);
        available := available - {empId};
        b := b.(unfilledSlots := b.unfilledSlots - 1);
        added := added + [empId];
      }
      b := b.(isFullyStaffed := b.unfilledSlots == 0);
      RefillStops(added, a.unfilledSlots, pool, employees, st, scenario);
    }

    /** `rebalance_schedule` for a known station: refills its assignment, which is created empty when missing. */
    method RebalanceKnown(stationId: Id) returns (fully: bool, ghost added: seq<Id>)
      requires stationId in stations && available <= employees.Keys
      modifies this`assignments, this`available
      ensures var a := AssignmentOf(old(assignments), stationId);
        && Refill(added, a.unfilledSlots, old(available), employees, stations[stationId], scenario)
        && assignments == old(assignments)[stationId := Refilled(a, added)]
        && available == old(available) - Elems(added)
        && fully == Refilled(a, added).isFullyStaffed
    {
      var station := stations[stationId];
      var assignment := EmptyAssignment(stationId);
      if stationId in assignments {
        assignment := assignments[stationId];
      }
      assignment, added := RefillSlots(station, assignment, available);
      assignments := assignments[stationId := assignment];
      fully := assignment.isFullyStaffed;
    }

    /**
     * `rebalance_schedule`: an unknown station is an error; otherwise the station's
     * open slots are refilled one best candidate at a time, and the result says
     * whether none is left open. A station without an assignment gets an empty one
     * with no open slots, so it comes back fully staffed with nobody on it.
     */
    method RebalanceSchedule(stationId: Id) returns (r: Result<bool, Error>, ghost added: seq<Id>)
      requires Valid()
      modifies this`assignments, this`available
      ensures Valid()
      ensures stationId !in stations ==>
        r == Err(UnknownStation(stationId)) && assignments == old(assignments) && available == old(available)
      ensures stationId in stations ==>
        var a := AssignmentOf(old(assignments), stationId);
        && Refill(added, a.unfilledSlots, old(available), employees, stations[stationId], scenario)
        && assignments == old(assignments)[stationId := Refilled(a, added)]
        && available == old(available) - Elems(added)
        && r == Ok(Refilled(a, added).isFullyStaffed)
    {
      if stationId !in stations {
        return Err(UnknownStation(stationId)), [];
      }
      var fully;
      fully, added := RebalanceKnown(stationId);
      WellFormedReassigned(old(Contents()), assignments, available, scenario);
      assert Contents() == old(Contents()).(assignments := assignments, available := available, scenario := scenario);
      r := Ok(fully);
    }

    /**
     * The first loop of `handle_absence`: every assignment holding the employee has
     * them removed (first occurrence), one more open slot and is marked not fully
     * staffed; those stations are listed once each, in the order visited.
     */
    method StrikeFromLists(employeeId: Id) returns (affected: seq<Id>)
      modifies this`assignments
      ensures Distinct(affected) && Elems(affected) == AffectedBy(old(assignments), employeeId)
      ensures assignments == StruckAll(old(assignments), employeeId)
    {
      ghost var asg0 := assignments;
      var pending := assignments.Keys;
      ghost var seen: set<Id> := {};
      affected := [];
      while pending != {}
        invariant seen + pending == asg0.Keys && seen !! pending
        invariant StruckSoFar(asg0, employeeId, seen, assignments)
        invariant Distinct(affected) && Elems(affected) == AffectedBy(asg0, employeeId) * seen
        decreases |pending|
      {
        var stationId :| stationId in pending;
        affected := StrikeOne(employeeId, stationId, affected, asg0, seen);
        MoveOne(seen, pending, asg0.Keys, stationId);
        pending := pending - {stationId};
        seen := seen + {stationId};
      }
      StruckDone(asg0, employeeId, seen, assignments, affected);
    }

    /**
     * `handle_absence`: an unknown employee is an error; otherwise the employee is
     * marked absent and no longer available, struck from every list holding them,
     * and each station struck from is rebalanced in turn, drawing on what the
     * earlier ones left. The stations struck from are returned.
     */
    method HandleAbsence(employeeId: Id) returns (r: Result<seq<Id>, Error>, ghost added: map<Id, seq<Id>>)
      requires Valid()
      modifies this`assignments, this`available, this`absent
      ensures Valid()
      ensures employeeId !in employees ==>
        && r == Err(UnknownEmployee(employeeId))
        && assignments == old(assignments) && available == old(available) && absent == old(absent)
      ensures employeeId in employees ==>
        && r.Ok? && absent == old(absent) + {employeeId}
        && AbsenceHandled(old(assignments), old(available) - {employeeId}, employeeId, r.value, added,
                          stations, employees, scenario, assignments, available)
    {
      if employeeId !in employees {
        return Err(UnknownEmployee(employeeId)), map[];
      }
      MarkAbsent(employeeId);
      var affected;
      affected, added := StrikeAndRebalance(employeeId);
      r := Ok(affected);
    }

    /** `handle_absence`'s first step: the employee joins the absent set and leaves the available one. */
    method MarkAbsent(employeeId: Id)
      requires Valid() && employeeId in employees
      modifies this`available, this`absent
      ensures Valid()
      ensures absent == old(absent) + {employeeId} && available == old(available) - {employeeId}
    {
      absent := absent + {employeeId};
      available := available - {employeeId};
      WellFormedMarkedAbsent(old(Contents()), employeeId);
      assert Contents() == old(Contents()).(available := available, absent := absent);
    }

    /** The rest of `handle_absence`: the employee is struck from every list and the stations struck from are rebalanced. */
    method StrikeAndRebalance(employeeId: Id) returns (affected: seq<Id>, ghost added: map<Id, seq<Id>>)
      requires Valid()
      modifies this`assignments, this`available
      ensures Valid()
      ensures AbsenceHandled(old(assignments), old(available), employeeId, affected, added,
                             stations, employees, scenario, assignments, available)
    {
      affected, added := RebalanceAffected(employeeId);
      WellFormedShrunk(old(Contents()), assignments, available);
      assert Contents() == old(Contents()).(assignments := assignments, available := available);
    }

    /** `StrikeAndRebalance` without the bookkeeping invariant: only what the loops need. */
    method RebalanceAffected(employeeId: Id) returns (affected: seq<Id>, ghost added: map<Id, seq<Id>>)
      requires available <= employees.Keys
      requires forall k :: k in assignments ==> k in stations && assignments[k].stationId == k
      modifies this`assignments, this`available
      ensures AbsenceHandled(old(assignments), old(available), employeeId, affected, added,
                             stations, employees, scenario, assignments, available)
      ensures forall k :: k in assignments ==> k in stations && assignments[k].stationId == k
      ensures available <= old(available)
    {
      affected := StrikeFromLists(employeeId);
      assert forall i :: 0 <= i < |affected| ==> affected[i] in Elems(affected);
      added := RebalanceInOrder(affected, assignments, available);
      RefilledKeyed(old(assignments), old(available), employeeId, affected, added, stations, employees, scenario,
                    assignments, available);
    }

    /** One turn of `handle_absence`'s first loop, at station `stationId`. */
    method StrikeOne(employeeId: Id, stationId: Id, affected: seq<Id>, ghost asg0: map<Id, Assignment>, ghost seen: set<Id>)
      returns (affected': seq<Id>)
      requires StruckSoFar(asg0, employeeId, seen, assignments) && stationId in asg0 && stationId !in seen
      requires Distinct(affected) && Elems(affected) == AffectedBy(asg0, employeeId) * seen
      modifies this`assignments
      ensures StruckSoFar(asg0, employeeId, seen + {stationId}, assignments)
      ensures Distinct(affected') && Elems(affected') == AffectedBy(asg0, employeeId) * (seen + {stationId})
    {
      StruckStep(asg0, employeeId, seen, assignments, stationId, affected);
      affected' := affected;
      var assignment := assignments[stationId];
      if employeeId in assignment.assignedEmployeeIds {
        assignment := assignment.(assignedEmployeeIds := RemoveFirst(assignment.assignedEmployeeIds, employeeId),
                                  unfilledSlots := assignment.unfilledSlots + 1, isFullyStaffed := false);
        assert assignment == Strike(asg0[stationId], employeeId);
        assignments := assignments[stationId := assignment];
        DistinctSnoc(affected, stationId);
        affected' := affected + [stationId];
      }
    }

    /** The second loop of `handle_absence`: the stations of `affected` are rebalanced in order. */
    method RebalanceInOrder(affected: seq<Id>, ghost before: map<Id, Assignment>, ghost pool: set<Id>)
      returns (ghost added: map<Id, seq<Id>>)
      requires Distinct(affected) && forall i :: 0 <= i < |affected| ==> affected[i] in before && affected[i] in stations
      requires assignments == before && available == pool && pool <= employees.Keys
      modifies this`assignments, this`available
      ensures RefilledUpTo(before, pool, affected, |affected|, added, stations, employees, scenario, assignments, available)
    {
      added := map[];
      RefilledStart(before, pool, affected, stations, employees, scenario);
      var i := 0;
      while i < |affected|
        invariant 0 <= i <= |affected|
        invariant RefilledUpTo(before, pool, affected, i, added, stations, employees, scenario, assignments, available)
      {
        added := RebalanceNext(affected, i, before, pool, added);
        i := i + 1;
      }
    }

    /** One turn of `handle_absence`'s second loop: station `i` of `affected` is rebalanced. */
    method RebalanceNext(affected: seq<Id>, i: nat, ghost before: map<Id, Assignment>, ghost pool: set<Id>,
                         ghost added: map<Id, seq<Id>>)
      returns (ghost added': map<Id, seq<Id>>)
      requires Distinct(affected) && i < |affected| && affected[i] in before && affected[i] in stations
      requires RefilledUpTo(before, pool, affected, i, added, stations, employees, scenario, assignments, available)
      requires pool <= employees.Keys
      modifies this`assignments, this`available
      ensures RefilledUpTo(before, pool, affected, i + 1, added', stations, employees, scenario, assignments, available)
    {
      NotYetVisited(affected, i);
      assert assignments[affected[i]] == before[affected[i]];
      var fully;
      ghost var a;
      fully, a := RebalanceKnown(affected[i]);
      RefilledStep(before, pool, affected, i, added, stations, employees, scenario, old(assignments), old(available), a);
      added' := added[affected[i] := a];
    }

    /** `get_unfilled_stations`: every station whose assignment is not fully staffed, once each. */
    method GetUnfilledStations() returns (unfilled: seq<Id>)
      ensures Distinct(unfilled) && Elems(unfilled) == UnfilledIn(assignments)
    {
      var pending := assignments.Keys;
      ghost var seen: set<Id> := {};
      unfilled := [];
      while pending != {}
        invariant seen + pending == assignments.Keys && seen !! pending
        invariant Distinct(unfilled) && Elems(unfilled) == UnfilledIn(assignments) * seen
        decreases |pending|
      {
        var stationId :| stationId in pending;
        FilterStep(unfilled, UnfilledIn(assignments), seen, stationId);
        if !assignments[stationId].isFullyStaffed {
          unfilled := unfilled + [stationId];
        }
        MoveOne(seen, pending, assignments.Keys, stationId);
        pending := pending - {stationId};
        seen := seen + {stationId};
      }
      assert UnfilledIn(assignments) * seen == UnfilledIn(assignments);
    }

    /**
     * `get_schedule_summary`: one entry per assignment with the station's name, the
     * assigned list, the required and filled counts and the status. A station id
     * unknown to the stations dictionary would raise `KeyError`.
     */
    method GetScheduleSummary() returns (summary: map<Id, SummaryRow>)
      requires forall k :: k in assignments ==> k in stations
      ensures summary.Keys == assignments.Keys
      ensures forall k :: k in summary ==> summary[k] == RowOf(stations[k], assignments[k])
    {
      var pending := assignments.Keys;
      summary := map[];
      while pending != {}
        invariant pending <= assignments.Keys
        invariant summary.Keys == assignments.Keys - pending
        invariant forall k :: k in summary ==> summary[k] == RowOf(stations[k], assignments[k])
        decreases |pending|
      {
        var stationId :| stationId in pending;
        var assignment := assignments[stationId];
        var station := stations[stationId];
        var filled := |assignment.assignedEmployeeIds|;
        summary := summary[stationId := SummaryRow(station.name, assignment.assignedEmployeeIds,
                                                   station.requiredHeadcount, filled,
                                                   if assignment.isFullyStaffed then "fully_staffed" else "unfilled")];
        pending := pending - {stationId};
      }
    }

    /**
     * `to_json`: stations in dictionary order, the employees, assignments and the
     * two sets in an order the model leaves open, and the log; loading the result
     * gives back this state with the scenario reset to Balanced.
     */
    method ToJson() returns (snap: SnapshotDict)
      requires Valid()
      ensures FromSnapshot(snap) == Ok(Contents().(scenario := Balanced))
    {
      var employeeIds := ListOf(employees.Keys);
      var assignmentIds := ListOf(assignments.Keys);
      var availableIds := ListOf(available);
      var absentIds := ListOf(absent);
      snap := ToSnapshot(Contents(), employeeIds, assignmentIds, availableIds, absentIds);
      SnapshotRoundTrip(Contents(), employeeIds, assignmentIds, availableIds, absentIds);
    }

    /**
     * `from_json`: the stations and employees lists load first (either missing is an
     * error) and build a new scheduler; then the assignments are entered one by one,
     * the available and absent sets replaced as written, and the log records
     * appended one by one. The first record that fails to load is the error.
     */
    static method FromJson(snap: SnapshotDict) returns (r: Result<Scheduler, Error>)
      ensures FromSnapshot(snap).Err? ==> r == Err(FromSnapshot(snap).error)
      ensures FromSnapshot(snap).Ok? ==> r.Ok? && fresh(r.value) && r.value.Contents() == FromSnapshot(snap).value
    {
      if snap.stations.None? {
        return Err(MissingField("stations"));
      }
      var stationsLoaded := DecodeAll(snap.stations.value, StationFromDict);
      if stationsLoaded.Err? {
        return Err(stationsLoaded.error);
      }
      if snap.employees.None? {
        return Err(MissingField("employees"));
      }
      var employeesLoaded := DecodeAll(snap.employees.value, EmployeeFromDict);
      if employeesLoaded.Err? {
        return Err(employeesLoaded.error);
      }
      var scheduler := new Scheduler(stationsLoaded.value, employeesLoaded.value);
      var failed := RestoreAssignments(scheduler, snap.assignments.GetOr([]));
      if failed.Some? {
        return Err(failed.value);
      }
      scheduler.available := Elems(snap.availableEmployees.GetOr([]));
      scheduler.absent := Elems(snap.absentEmployees.GetOr([]));
      failed := RestoreLogs(scheduler, snap.assignmentLogs.GetOr([]));
      if failed.Some? {
        return Err(failed.value);
      }
      r := Ok(scheduler);
    }

    /** `from_json`'s assignment loop: each record is loaded and entered under its station id. */
    static method RestoreAssignments(s: Scheduler, ds: seq<AssignmentDict>) returns (failed: Option<Error>)
      requires s.assignments == map[]
      modifies s`assignments
      ensures failed.Some? <==> DecodeAll(ds, AssignmentFromDict).Err?
      ensures failed.Some? ==> failed.value == DecodeAll(ds, AssignmentFromDict).error
      ensures failed.None? ==> s.assignments == ToMap(DecodeAll(ds, AssignmentFromDict).value, AssignmentKeyOf)
    {
      var i := 0;
      while i < |ds|
        invariant 0 <= i <= |ds|
        invariant DecodeAll(ds[..i], AssignmentFromDict).Ok?
        invariant s.assignments == ToMap(DecodeAll(ds[..i], AssignmentFromDict).value, AssignmentKeyOf)
      {
        var loaded := AssignmentFromDict(ds[i]);
        DecodeAllStep(ds, i, AssignmentFromDict);
        if loaded.Err? {
          DecodeAllErrorSticks(ds, i + 1, |ds|, AssignmentFromDict);
          FullPrefix(ds);
          return Some(loaded.error);
        }
        ToMapSnoc(DecodeAll(ds[..i], AssignmentFromDict).value, loaded.value, AssignmentKeyOf);
        s.assignments := s.assignments[loaded.value.stationId := loaded.value];
        i := i + 1;
      }
      FullPrefix(ds);
      return None;
    }

    /** `from_json`'s log loop: each record is loaded and appended. */
    static method RestoreLogs(s: Scheduler, ds: seq<LogDict>) returns (failed: Option<Error>)
      requires s.logs == []
      modifies s`logs
      ensures failed.Some? <==> DecodeAll(ds, LogFromDict).Err?
      ensures failed.Some? ==> failed.value == DecodeAll(ds, LogFromDict).error
      ensures failed.None? ==> s.logs == DecodeAll(ds, LogFromDict).value
    {
      var i := 0;
      while i < |ds|
        invariant 0 <= i <= |ds|
        invariant DecodeAll(ds[..i], LogFromDict).Ok?
        invariant s.logs == DecodeAll(ds[..i], LogFromDict).value
      {
        var loaded := LogFromDict(ds[i]);
        DecodeAllStep(ds, i, LogFromDict);
        if loaded.Err? {
          DecodeAllErrorSticks(ds, i + 1, |ds|, LogFromDict);
          FullPrefix(ds);
          return Some(loaded.error);
        }
        s.logs := s.logs + [loaded.value];
        i := i + 1;
      }
      FullPrefix(ds);
      return None;
    }
  }
}
