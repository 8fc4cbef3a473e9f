/**
 * The roster rules of the web front end: marking an employee absent or present
 * in the matrix editor, and adding or removing employees and stations. Each rule
 * changes a `MatrixScheduler`'s fields directly, outside the engine class.
 */
module Roster {
  import opened Wrappers
  import opened Models
  import opened Lists
  import opened Dicts
  import opened Rotation
  import opened Greedy
  import opened Snapshot
  import opened Absence
  import opened Engine

  /**
   * The roster and the schedule agree, as `generate_schedule` leaves them: the
   * available employees are exactly the present ones nobody is assigned, everyone
   * assigned is a known employee who is present, and no list holds anyone twice.
   */
  predicate Accounted(s: State)
  {
    && s.available == (s.employees.Keys - s.absent) - AssignedIds(s.assignments)
    && AssignedIds(s.assignments) <= s.employees.Keys - s.absent
    && forall k :: k in s.assignments ==> Distinct(s.assignments[k].assignedEmployeeIds)
  }

  /** A greedy pass over every station leaves the roster and the schedule in agreement. */
  lemma GeneratedAccounted(s: State, order: seq<Station>, stats: Option<Stats>)
    requires GreedySchedule(order, s.employees.Keys - s.absent, s.employees, stats, s.scenario, s.assignments)
    requires s.assignments.Keys == IdsOf(order)
    requires s.available == (s.employees.Keys - s.absent) - AssignedIds(s.assignments)
    ensures Accounted(s)
  {
    var present := s.employees.Keys - s.absent;
    forall k | k in s.assignments ensures Distinct(s.assignments[k].assignedEmployeeIds) {
      var st :| st in order && st.id == k;
      var i :| 0 <= i < |order| && order[i] == st;
      GreedyAt(order, present, s.employees, stats, s.scenario, s.assignments, i);
    }
    forall x | x in AssignedIds(s.assignments) ensures x in present {
      var k :| k in s.assignments && x in s.assignments[k].assignedEmployeeIds;
      var st :| st in order && st.id == k;
      var i :| 0 <= i < |order| && order[i] == st;
      GreedySound(order, present, s.employees, stats, s.scenario, s.assignments, i, x);
    }
  }

  /** `generate_schedule` run on a well-formed scheduler leaves its roster and schedule in agreement. */
  method GenerateAccounted(s: Scheduler, sc: Option<ScenarioWeights>, today: int, cutoff: string,
                           parse: string -> Option<int>)
    returns (r: map<Id, Assignment>)
    requires s.Valid()
    modifies s
    ensures s.Valid() && Accounted(s.Contents())
    ensures r == s.assignments
  {
    r := s.GenerateSchedule(sc, today, cutoff, parse);
    VisitOrderCovers(s.stationOrder, s.stations);
    GeneratedAccounted(s.Contents(), VisitOrder(s.stationOrder, s.stations),
                       RotationInput(s.logs, today, cutoff, parse));
  }

  /** Lists that each lost exactly `eid` hold, together, everyone they held but `eid`. */
  lemma AssignedWithout(asg: map<Id, Assignment>, asg': map<Id, Assignment>, eid: Id)
    requires asg'.Keys == asg.Keys
    requires forall k :: k in asg ==> Elems(asg'[k].assignedEmployeeIds) == Elems(asg[k].assignedEmployeeIds) - {eid}
    ensures AssignedIds(asg') == AssignedIds(asg) - {eid}
  {
    forall x ensures x in AssignedIds(asg') <==> x in AssignedIds(asg) && x != eid {
      if x in AssignedIds(asg') {
        var k :| k in asg' && x in asg'[k].assignedEmployeeIds;
        assert x in Elems(asg'[k].assignedEmployeeIds);
      }
      if x in AssignedIds(asg) && x != eid {
        var k :| k in asg && x in asg[k].assignedEmployeeIds;
        assert x in Elems(asg[k].assignedEmployeeIds);
        assert x in Elems(asg'[k].assignedEmployeeIds);
      }
    }
  }

  // ---------------------------------------------------------------------------
  // Presence, from the matrix editor (app.py:976-1003)

  /** Unticking "Present": absent, no longer available, and struck from every list, with no refill. */
  function MarkedAbsent(s: State, eid: Id): State
  {
    s.(absent := s.absent + {eid}, available := s.available - {eid}, assignments := StruckAll(s.assignments, eid))
  }

  /** Ticking "Present" again: only the two sets change. */
  function MarkedPresent(s: State, eid: Id): State
  {
    s.(absent := s.absent - {eid}, available := s.available + {eid})
  }

  /** Marking a known employee absent or present keeps the bookkeeping. */
  lemma PresenceWellFormed(s: State, eid: Id)
    requires WellFormed(s) && eid in s.employees
    ensures WellFormed(MarkedAbsent(s, eid))
    ensures WellFormed(MarkedPresent(s, eid))
  {
    var asg := StruckAll(s.assignments, eid);
    assert forall k :: k in asg ==> k in s.stations && asg[k].stationId == k;
  }

  /**
   * Each list that held the employee is one shorter, with one more open slot and
   * not fully staffed; the employee is in no list afterwards; the other lists are
   * as they were.
   */
  lemma MarkedAbsentStrikes(s: State, eid: Id, k: Id)
    requires k in s.assignments && Distinct(s.assignments[k].assignedEmployeeIds)
    ensures k in MarkedAbsent(s, eid).assignments
    ensures var a, b := s.assignments[k], MarkedAbsent(s, eid).assignments[k];
      && eid !in b.assignedEmployeeIds
      && Elems(b.assignedEmployeeIds) == Elems(a.assignedEmployeeIds) - {eid}
      && (eid in a.assignedEmployeeIds ==>
            |b.assignedEmployeeIds| == |a.assignedEmployeeIds| - 1 && b.unfilledSlots == a.unfilledSlots + 1 && !b.isFullyStaffed)
      && (eid !in a.assignedEmployeeIds ==> b == a)
  {
    RemoveFirstDistinct(s.assignments[k].assignedEmployeeIds, eid);
  }

  /** Marking a present employee absent, or an absent one present, keeps the roster and the schedule in agreement. */
  lemma PresenceAccounted(s: State, eid: Id)
    requires Accounted(s) && eid in s.employees
    ensures eid !in s.absent ==> Accounted(MarkedAbsent(s, eid))
    ensures eid in s.absent ==> Accounted(MarkedPresent(s, eid))
  {
    var asg := StruckAll(s.assignments, eid);
    forall k | k in s.assignments
      ensures Elems(asg[k].assignedEmployeeIds) == Elems(s.assignments[k].assignedEmployeeIds) - {eid}
      ensures Distinct(asg[k].assignedEmployeeIds)
    {
      RemoveFirstDistinct(s.assignments[k].assignedEmployeeIds, eid);
    }
    AssignedWithout(s.assignments, asg, eid);
  }

  /** Marking absent and then present again restores both sets of an available employee; the lists stay struck. */
  lemma PresenceRoundTrip(s: State, eid: Id)
    requires eid in s.available && eid !in s.absent
    ensures MarkedPresent(MarkedAbsent(s, eid), eid) == s.(assignments := StruckAll(s.assignments, eid))
  {
    assert (s.available - {eid}) + {eid} == s.available;
    assert (s.absent + {eid}) - {eid} == s.absent;
  }

  /**
   * The presence column for one employee: unticking "Present" marks a present
   * employee absent, ticking it marks an absent one present, and otherwise
   * nothing changes.
   */
  method SetPresence(s: Scheduler, employeeId: Id, present: bool)
    requires s.Valid() && employeeId in s.employees
    modifies s`assignments, s`available, s`absent
    ensures s.Valid()
    ensures s.Contents() ==
      if employeeId !in old(s.absent) && !present then MarkedAbsent(old(s.Contents()), employeeId)
      else if employeeId in old(s.absent) && present then MarkedPresent(old(s.Contents()), employeeId)
      else old(s.Contents())
  {
    PresenceWellFormed(s.Contents(), employeeId);
    var wasPresent := employeeId !in s.absent;
    if wasPresent && !present {
      s.absent := s.absent + {employeeId};
      s.available := s.available - {employeeId};
      var struck := s.StrikeFromLists(employeeId);
    } else if !wasPresent && present {
      s.absent := s.absent - {employeeId};
      s.available := s.available + {employeeId};
    }
  }

  // ---------------------------------------------------------------------------
  // Removing an employee (app.py:501-514)

  /** One list with the employee taken out; the open-slot count and status are left as they were. */
  function Purge(a: Assignment, eid: Id): Assignment
  {
    a.(assignedEmployeeIds := RemoveFirst(a.assignedEmployeeIds, eid))
  }

  function PurgedAll(asg: map<Id, Assignment>, eid: Id): map<Id, Assignment>
  {
    map k | k in asg :: Purge(asg[k], eid)
  }

  /** The state after the "Remove" button of the employee list. */
  function EmployeeRemoved(s: State, eid: Id): State
  {
    s.(employees := s.employees - {eid}, available := s.available - {eid}, absent := s.absent - {eid},
       assignments := PurgedAll(s.assignments, eid))
  }

  /** Removing an employee keeps the bookkeeping. */
  lemma EmployeeRemovedWellFormed(s: State, eid: Id)
    requires WellFormed(s)
    ensures WellFormed(EmployeeRemoved(s, eid))
  {
    var asg := PurgedAll(s.assignments, eid);
    assert forall k :: k in asg ==> k in s.stations && asg[k].stationId == k;
  }

  /** Taking `eid` out of lists without duplicates keeps them so, and takes exactly `eid` out of the assigned set. */
  lemma PurgedFacts(asg: map<Id, Assignment>, eid: Id)
    requires forall k :: k in asg ==> Distinct(asg[k].assignedEmployeeIds)
    ensures forall k :: k in PurgedAll(asg, eid) ==> Distinct(PurgedAll(asg, eid)[k].assignedEmployeeIds)
    ensures AssignedIds(PurgedAll(asg, eid)) == AssignedIds(asg) - {eid}
  {
    var asg' := PurgedAll(asg, eid);
    forall k | k in asg
      ensures Elems(asg'[k].assignedEmployeeIds) == Elems(asg[k].assignedEmployeeIds) - {eid}
      ensures Distinct(asg'[k].assignedEmployeeIds)
    {
      RemoveFirstDistinct(asg[k].assignedEmployeeIds, eid);
    }
    AssignedWithout(asg, asg', eid);
  }

  /** Removing an employee keeps the roster and the schedule in agreement. */
  lemma EmployeeRemovedAccounted(s: State, eid: Id)
    requires Accounted(s)
    ensures Accounted(EmployeeRemoved(s, eid))
  {
    PurgedFacts(s.assignments, eid);
    var r := EmployeeRemoved(s, eid);
    assert r.employees.Keys - r.absent == (s.employees.Keys - s.absent) - {eid};
    assert AssignedIds(r.assignments) == AssignedIds(s.assignments) - {eid};
  }

  /**
   * The removed employee is gone from every list without duplicates, yet the
   * open-slot count and the status of a list that held them are not updated: a
   * kept assignment is no longer kept.
   */
  lemma EmployeeRemovedLeavesCounts(s: State, eid: Id, k: Id, st: Station)
    requires k in s.assignments && Distinct(s.assignments[k].assignedEmployeeIds)
    requires Bookkept(st, s.assignments[k]) && eid in s.assignments[k].assignedEmployeeIds
    ensures k in EmployeeRemoved(s, eid).assignments
    ensures var b := EmployeeRemoved(s, eid).assignments[k];
      && eid !in b.assignedEmployeeIds
      && b.unfilledSlots == s.assignments[k].unfilledSlots
      && !Bookkept(st, b)
  {
    RemoveFirstDistinct(s.assignments[k].assignedEmployeeIds, eid);
  }

  /** The loop over `scheduler.assignments.values()` that takes `eid` out of each list holding them. */
  method PurgeLists(s: Scheduler, employeeId: Id)
    modifies s`assignments
    ensures s.assignments == PurgedAll(old(s.assignments), employeeId)
  {
    ghost var asg0 := s.assignments;
    ghost var f := (k: Id, a: Assignment) => Purge(a, employeeId);
    var pending := s.assignments.Keys;
    ghost var seen: set<Id> := {};
    while pending != {}
      invariant seen + pending == asg0.Keys && seen !! pending
      invariant MappedSoFar(asg0, f, seen, s.assignments)
      decreases |pending|
    {
      var k :| k in pending;
      MappedStep(asg0, f, seen, s.assignments, k);
      var assignment := s.assignments[k];
      if employeeId in assignment.assignedEmployeeIds {
        assignment := assignment.(assignedEmployeeIds := RemoveFirst(assignment.assignedEmployeeIds, employeeId));
      }
      assert assignment == f(k, s.assignments[k]);
      s.assignments := s.assignments[k := assignment];
      MoveOne(seen, pending, asg0.Keys, k);
      pending := pending - {k};
      seen := seen + {k};
    }
    MappedDone(asg0, f, seen, s.assignments);
  }

  /** The "Remove" button of the employee list, for an employee on it. */
  method RemoveEmployee(s: Scheduler, employeeId: Id)
    requires s.Valid() && employeeId in s.employees
    modifies s`employees, s`available, s`absent, s`assignments
    ensures s.Valid()
    ensures s.Contents() == EmployeeRemoved(old(s.Contents()), employeeId)
  {
    ghost var s0 := s.Contents();
    EmployeeRemovedWellFormed(s0, employeeId);
    DropEmployee(s, employeeId);
    assert s.Contents() == EmployeeRemoved(s0, employeeId);
  }

  /** The cascade itself, without the bookkeeping. */
  method DropEmployee(s: Scheduler, employeeId: Id)
    modifies s`employees, s`available, s`absent, s`assignments
    ensures s.employees == old(s.employees) - {employeeId}
    ensures s.available == old(s.available) - {employeeId} && s.absent == old(s.absent) - {employeeId}
    ensures s.assignments == PurgedAll(old(s.assignments), employeeId)
  {
    s.employees := s.employees - {employeeId};
    s.available := s.available - {employeeId};
    s.absent := s.absent - {employeeId};
    PurgeLists(s, employeeId);
  }

  // ---------------------------------------------------------------------------
  // Removing a station (app.py:630-643)

  function ForgottenBy(employees: map<Id, Employee>, sid: Id): map<Id, Employee>
  {
    map k | k in employees :: ForgetStation(employees[k], sid)
  }

  /** The state after the "Remove" button of the station list. */
  function StationRemoved(s: State, sid: Id): State
  {
    s.(employees := ForgottenBy(s.employees, sid), stations := s.stations - {sid},
       stationOrder := RemoveFirst(s.stationOrder, sid), assignments := s.assignments - {sid})
  }

  /**
   * Removing a station keeps the bookkeeping; no employee keeps a level for it,
   * and every other level is as it was.
   */
  lemma StationRemovedKeeps(s: State, sid: Id, k: Id, t: Id)
    requires WellFormed(s)
    ensures WellFormed(StationRemoved(s, sid))
    ensures k in s.employees ==>
      && k in StationRemoved(s, sid).employees
      && GetCompetency(StationRemoved(s, sid).employees[k], sid) == 0
      && (t != sid ==> GetCompetency(StationRemoved(s, sid).employees[k], t) == GetCompetency(s.employees[k], t))
  {
    RemoveFirstDistinct(s.stationOrder, sid);
  }

  /**
   * The staff of a removed station are dropped from the schedule but not made
   * available again: a present employee on its list is afterwards neither
   * assigned nor available, so the roster and the schedule no longer agree.
   */
  lemma StationRemovedStrands(s: State, sid: Id, x: Id)
    requires Accounted(s) && sid in s.assignments && x in s.assignments[sid].assignedEmployeeIds
    requires forall k :: k in s.assignments && k != sid ==> x !in s.assignments[k].assignedEmployeeIds
    ensures x in StationRemoved(s, sid).employees && x !in StationRemoved(s, sid).absent
    ensures x !in AssignedIds(StationRemoved(s, sid).assignments) && x !in StationRemoved(s, sid).available
    ensures !Accounted(StationRemoved(s, sid))
  {
    assert x in AssignedIds(s.assignments);
  }

  /** Forgetting a station an employee has no level for changes nothing. */
  lemma ForgetUnlisted(e: Employee, sid: Id)
    requires sid !in e.stationCompetencies
    ensures ForgetStation(e, sid) == e
  {
    assert e.stationCompetencies - {sid} == e.stationCompetencies;
  }

  /** The loop over `scheduler.employees.values()` that deletes the station's level from each competency map holding it. */
  method ForgetLevels(s: Scheduler, stationId: Id)
    modifies s`employees
    ensures s.employees == ForgottenBy(old(s.employees), stationId)
  {
    ghost var emps0 := s.employees;
    ghost var f := (k: Id, e: Employee) => ForgetStation(e, stationId);
    var pending := s.employees.Keys;
    ghost var seen: set<Id> := {};
    while pending != {}
      invariant seen + pending == emps0.Keys && seen !! pending
      invariant MappedSoFar(emps0, f, seen, s.employees)
      decreases |pending|
    {
      var k :| k in pending;
      MappedStep(emps0, f, seen, s.employees, k);
      var emp := s.employees[k];
      if stationId in emp.stationCompetencies {
        emp := emp.(stationCompetencies := emp.stationCompetencies - {stationId});
      } else {
        ForgetUnlisted(emp, stationId);
      }
      assert emp == f(k, s.employees[k]);
      s.employees := s.employees[k := emp];
      MoveOne(seen, pending, emps0.Keys, k);
      pending := pending - {k};
      seen := seen + {k};
    }
    MappedDone(emps0, f, seen, s.employees);
  }

  /** The "Remove" button of the station list, for a station on it. */
  method RemoveStation(s: Scheduler, stationId: Id)
    requires s.Valid() && stationId in s.stations
    modifies s`employees, s`stations, s`stationOrder, s`assignments
    ensures s.Valid()
    ensures s.Contents() == StationRemoved(old(s.Contents()), stationId)
  {
    ghost var s0 := s.Contents();
    StationRemovedKeeps(s0, stationId, stationId, stationId);
    DropStation(s, stationId);
    assert s.Contents() == StationRemoved(s0, stationId);
  }

  /** The cascade itself, without the bookkeeping. */
  method DropStation(s: Scheduler, stationId: Id)
    modifies s`employees, s`stations, s`stationOrder, s`assignments
    ensures s.employees == ForgottenBy(old(s.employees), stationId)
    ensures s.stations == old(s.stations) - {stationId}
    ensures s.stationOrder == RemoveFirst(old(s.stationOrder), stationId)
    ensures s.assignments == old(s.assignments) - {stationId}
  {
    ForgetLevels(s, stationId);
    s.stations := s.stations - {stationId};
    s.stationOrder := RemoveFirst(s.stationOrder, stationId);
    if stationId in s.assignments {
      s.assignments := s.assignments - {stationId};
    } else {
      DropUnlisted(s.assignments, stationId);
    }
  }

  /** Deleting a key a dict does not hold changes nothing. */
  lemma DropUnlisted(asg: map<Id, Assignment>, k: Id)
    requires k !in asg
    ensures asg - {k} == asg
  {
  }

  // ---------------------------------------------------------------------------
  // Adding an employee (app.py:779-790)

  /** The whitespace Python's `str.strip()` removes, restricted to ASCII. */
  predicate IsSpace(c: char)
  {
    c == ' ' || c == '\t' || c == '\n' || c == '\r' || c as int == 11 || c as int == 12
  }

  function StripStart(s: string): (r: string)
    ensures |r| <= |s| && r == s[|s| - |r|..]
    ensures r == [] || !IsSpace(r[0])
    ensures forall i :: 0 <= i < |s| - |r| ==> IsSpace(s[i])
  {
    if s != [] && IsSpace(s[0]) then StripStart(s[1..]) else s
  }

  function StripEnd(s: string): (r: string)
    ensures |r| <= |s| && r == s[..|r|]
    ensures r == [] || !IsSpace(r[|r| - 1])
    ensures forall i :: |r| <= i < |s| ==> IsSpace(s[i])
  {
    if s != [] && IsSpace(s[|s| - 1]) then StripEnd(s[..|s| - 1]) else s
  }

  /** `str.strip()`: leading and trailing whitespace removed. */
  function Strip(s: string): string
  {
    StripEnd(StripStart(s))
  }

  /**
   * `r` is the piece of `s` starting at `i`, with no whitespace at either end of it
   * and only whitespace before and after it in `s`.
   */
  predicate TrimmedAt(s: string, i: int, r: string)
  {
    && (r == [] || (!IsSpace(r[0]) && !IsSpace(r[|r| - 1])))
    && 0 <= i <= |s| - |r| && s[i..i + |r|] == r
    && (forall j :: 0 <= j < i ==> IsSpace(s[j]))
    && (forall j :: i + |r| <= j < |s| ==> IsSpace(s[j]))
  }

  /**
   * A prefix `r` of a suffix `t` of `s`, with only whitespace before `t` in `s` and
   * after `r` in `t`, is the trimmed piece of `s` at `|s| - |t|`.
   */
  lemma TrimmedPiece(s: string, t: string, r: string)
    requires |t| <= |s| && t == s[|s| - |t|..]
    requires forall j :: 0 <= j < |s| - |t| ==> IsSpace(s[j])
    requires t == [] || !IsSpace(t[0])
    requires |r| <= |t| && r == t[..|r|]
    requires r == [] || !IsSpace(r[|r| - 1])
    requires forall j :: |r| <= j < |t| ==> IsSpace(t[j])
    ensures TrimmedAt(s, |s| - |t|, r)
  {
    var i := |s| - |t|;
    assert s[i..i + |r|] == s[i..][..|r|];
    if r != [] {
      assert r[0] == t[0];
    }
    forall j | i + |r| <= j < |s| ensures IsSpace(s[j]) {
      assert s[j] == t[j - i];
    }
  }

  /** The stripped name is a piece of the name with no whitespace at either end, and only whitespace around it. */
  lemma StripSpec(s: string)
    ensures TrimmedAt(s, |s| - |StripStart(s)|, Strip(s))
  {
    var t := StripStart(s);
    var r := StripEnd(t);
    assert Strip(s) == r;
    TrimmedPiece(s, t, r);
  }

  /** A name strips to nothing exactly when it is all whitespace. */
  lemma StripEmpty(s: string)
    ensures Strip(s) == [] <==> forall j :: 0 <= j < |s| ==> IsSpace(s[j])
  {
    StripSpec(s);
    var r, i := Strip(s), |s| - |StripStart(s)|;
    if r != [] {
      assert s[i] == r[0];
    }
  }

  /** The state after saving a new employee under a fresh id. */
  function EmployeeAdded(s: State, e: Employee): State
  {
    s.(employees := s.employees[e.id := e], available := s.available + {e.id})
  }

  /** Adding an employee under a fresh id keeps the bookkeeping and the agreement of roster and schedule. */
  lemma EmployeeAddedKeeps(s: State, e: Employee)
    requires WellFormed(s) && e.id !in s.employees
    ensures WellFormed(EmployeeAdded(s, e))
    ensures Accounted(s) ==> Accounted(EmployeeAdded(s, e))
  {
    if Accounted(s) {
      assert e.id !in AssignedIds(s.assignments);
    }
  }

  /**
   * "Save Employee": a name that strips to nothing saves nothing; otherwise the
   * employee is stored, under the fresh id `newId` the front end generates, with
   * the stripped name, and is available.
   */
  method AddEmployee(s: Scheduler, newId: Id, name: string, competencies: map<Id, int>, certificationLevel: int)
    requires s.Valid() && newId !in s.employees
    modifies s`employees, s`available
    ensures s.Valid()
    ensures s.Contents() ==
      if Strip(name) == [] then old(s.Contents())
      else EmployeeAdded(old(s.Contents()), Employee(newId, Strip(name), competencies, certificationLevel))
  {
    var stripped := Strip(name);
    if stripped != [] {
      var e := Employee(newId, stripped, competencies, certificationLevel);
      EmployeeAddedKeeps(s.Contents(), e);
      s.employees := s.employees[newId := e];
      s.available := s.available + {newId};
    }
  }
}
