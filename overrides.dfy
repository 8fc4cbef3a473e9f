/**
 * The manual-adjustment rules of the web front end: who counts as unassigned,
 * which employees a slot may be given, how conflicting choices are detected, how
 * the choices replace the schedule, and the training recommendations for the
 * employees left unassigned.
 */
module Overrides {
  import opened Wrappers
  import opened Models
  import opened Lists
  import opened Dicts
  import opened Greedy
  import opened Snapshot
  import opened Engine
  import opened Roster

  // ---------------------------------------------------------------------------
  // Who is assigned, who is not (app.py:1208-1216, 1260-1264, 1366-1371)

  /** Everyone on the lists of the stations in `keys`. */
  function AssignedIn(asg: map<Id, Assignment>, keys: set<Id>): set<Id>
  {
    set k, x | k in keys && k in asg && x in asg[k].assignedEmployeeIds :: x
  }

  /** Visiting one more station adds its list. */
  lemma AssignedInStep(asg: map<Id, Assignment>, keys: set<Id>, k: Id)
    requires k in asg
    ensures AssignedIn(asg, keys + {k}) == AssignedIn(asg, keys) + Elems(asg[k].assignedEmployeeIds)
  {
    forall x | x in Elems(asg[k].assignedEmployeeIds) ensures x in AssignedIn(asg, keys + {k}) {
      assert x in asg[k].assignedEmployeeIds;
    }
  }

  /** Visiting one more station and rewriting its list at the same time adds the new list. */
  lemma AssignedInUpdate(asg: map<Id, Assignment>, keys: set<Id>, k: Id, a: Assignment)
    requires k !in keys
    ensures AssignedIn(asg[k := a], keys + {k}) == AssignedIn(asg, keys) + Elems(a.assignedEmployeeIds)
  {
    var asg' := asg[k := a];
    AssignedInStep(asg', keys, k);
    forall x | x in AssignedIn(asg, keys) ensures x in AssignedIn(asg', keys) {
      var j :| j in keys && j in asg && x in asg[j].assignedEmployeeIds;
      assert asg'[j] == asg[j];
    }
    forall x | x in AssignedIn(asg', keys) ensures x in AssignedIn(asg, keys) {
      var j :| j in keys && j in asg' && x in asg'[j].assignedEmployeeIds;
      assert asg'[j] == asg[j];
    }
  }

  lemma AssignedInAll(asg: map<Id, Assignment>)
    ensures AssignedIn(asg, asg.Keys) == AssignedIds(asg)
  {
  }

  /** The loop that gathers everyone on some list (`assigned_ids`, and the keys of `all_assigned`). */
  method CollectAssigned(s: Scheduler) returns (onLists: set<Id>)
    ensures onLists == AssignedIds(s.assignments)
  {
    var pending := s.assignments.Keys;
    ghost var seen: set<Id> := {};
    onLists := {};
    while pending != {}
      invariant seen + pending == s.assignments.Keys && seen !! pending
      invariant onLists == AssignedIn(s.assignments, seen)
      decreases |pending|
    {
      var k :| k in pending;
      AssignedInStep(s.assignments, seen, k);
      onLists := onLists + Elems(s.assignments[k].assignedEmployeeIds);
      MoveOne(seen, pending, s.assignments.Keys, k);
      pending := pending - {k};
      seen := seen + {k};
    }
    AssignedInAll(s.assignments);
  }

  /** The present employees nobody is assigned. */
  function UnassignedIn(s: State): set<Id>
  {
    (s.employees.Keys - s.absent) - AssignedIds(s.assignments)
  }

  /** `present_employees - assigned_ids`. */
  method UnassignedEmployees(s: Scheduler) returns (ids: set<Id>)
    ensures ids == UnassignedIn(s.Contents())
  {
    var onLists := CollectAssigned(s);
    ids := (s.employees.Keys - s.absent) - onLists;
  }

  /**
   * An employee is unassigned exactly when known, present and on no list; when
   * roster and schedule agree (as `generate_schedule` leaves them) the unassigned
   * employees are the available ones.
   */
  lemma UnassignedMeans(s: State, e: Id)
    ensures e in UnassignedIn(s) <==>
      e in s.employees && e !in s.absent && forall k :: k in s.assignments ==> e !in s.assignments[k].assignedEmployeeIds
    ensures Accounted(s) ==> UnassignedIn(s) == s.available
  {
    forall k | k in s.assignments && e in s.assignments[k].assignedEmployeeIds ensures e in AssignedIds(s.assignments) {
    }
  }

  // ---------------------------------------------------------------------------
  // The choices offered for a slot (app.py:1260-1298)

  /** The employee in slot `slot` of a list, if the list is that long. */
  function Holder(a: Assignment, slot: nat): Option<Id>
  {
    if slot < |a.assignedEmployeeIds| then Some(a.assignedEmployeeIds[slot]) else None
  }

  /**
   * Who a slot may be given besides "(Unassigned)": the present employees
   * qualified for the station who hold this very slot or are on no list.
   */
  function OptionsFor(s: State, st: Station, current: Option<Id>): set<Id>
  {
    set e | e in QualifiedAmong(s.employees.Keys - s.absent, s.employees, st) &&
            (current == Some(e) || e !in AssignedIds(s.assignments))
  }

  /**
   * An employee offered for a slot is present, known and qualified, and holds
   * that slot or none, so choosing them books nobody twice; the holder of the
   * slot is offered whenever present and qualified.
   */
  lemma OptionsRespectBookings(s: State, st: Station, current: Option<Id>, e: Id)
    ensures e in OptionsFor(s, st, current) ==> e in s.employees && e !in s.absent && Qualifies(s.employees[e], st)
    ensures e in OptionsFor(s, st, current) && e in AssignedIds(s.assignments) ==> current == Some(e)
    ensures current == Some(e) && e in QualifiedAmong(s.employees.Keys - s.absent, s.employees, st) ==>
      e in OptionsFor(s, st, current)
  {
  }

  /** The options of one slot, "(Unassigned)" left implicit, in the set's unspecified order. */
  method OverrideOptions(s: Scheduler, stationId: Id, slot: nat) returns (options: seq<Id>)
    requires s.Valid() && stationId in s.assignments
    ensures stationId in s.stations
    ensures Distinct(options)
    ensures Elems(options) == OptionsFor(s.Contents(), s.stations[stationId], Holder(s.assignments[stationId], slot))
  {
    var allAssigned := CollectAssigned(s);
    var assignment := s.assignments[stationId];
    var current: Option<Id> := None;
    if slot < |assignment.assignedEmployeeIds| {
      current := Some(assignment.assignedEmployeeIds[slot]);
    }
    options := ListOptions(s, stationId, current, allAssigned);
  }

  /** The loop over `present_ids` that lists a slot's options. */
  method ListOptions(s: Scheduler, stationId: Id, current: Option<Id>, allAssigned: set<Id>) returns (options: seq<Id>)
    requires s.Valid() && stationId in s.stations && allAssigned == AssignedIds(s.assignments)
    ensures Distinct(options) && Elems(options) == OptionsFor(s.Contents(), s.stations[stationId], current)
  {
    var presentIds := s.employees.Keys - s.absent;
    ghost var target := OptionsFor(s.Contents(), s.stations[stationId], current);
    var pool := presentIds;
    ghost var seen: set<Id> := {};
    options := [];
    while pool != {}
      invariant seen + pool == presentIds && seen !! pool
      invariant Distinct(options) && Elems(options) == target * seen
      decreases |pool|
    {
      var e :| e in pool;
      FilterStep(options, target, seen, e);
      if s.IsQualified(e, stationId) && (current == Some(e) || e !in allAssigned) {
        options := options + [e];
      }
      MoveOne(seen, pool, presentIds, e);
      pool := pool - {e};
      seen := seen + {e};
    }
  }

  // ---------------------------------------------------------------------------
  // Conflicting choices (app.py:1318-1329)

  /** A slot: a station id and a slot index. */
  type Slot = (Id, int)

  /** The choice made for each slot: an employee id, or `None` for "(Unassigned)". */
  type Selections = map<Slot, Option<Id>>

  /** The slots among `keys` that chose `e`. */
  function SlotsOf(sel: Selections, e: Id, keys: set<Slot>): set<Slot>
  {
    set key | key in keys && key in sel && sel[key] == Some(e)
  }

  /** Everyone chosen for a slot among `keys`. */
  function ChosenIn(sel: Selections, keys: set<Slot>): set<Id>
  {
    set key | key in keys && key in sel && sel[key].Some? :: sel[key].value
  }

  /** The employees chosen for more than one slot. */
  function Conflicts(sel: Selections): set<Id>
  {
    set e | e in ChosenIn(sel, sel.Keys) && |SlotsOf(sel, e, sel.Keys)| > 1
  }

  /** Nobody is chosen for two slots. */
  predicate Injective(sel: Selections)
  {
    forall a, b :: a in sel && b in sel && sel[a].Some? && sel[a] == sel[b] ==> a == b
  }

  /** Two different slots choosing the same employee make a conflict. */
  lemma TwoSlotsConflict(sel: Selections, a: Slot, b: Slot)
    requires a in sel && b in sel && a != b && sel[a].Some? && sel[a] == sel[b]
    ensures sel[a].value in Conflicts(sel)
  {
    var e := sel[a].value;
    assert e in ChosenIn(sel, sel.Keys);
    SubsetCard({a, b}, SlotsOf(sel, e, sel.Keys));
    assert |{a, b}| == 2;
  }

  /** There is no conflict exactly when nobody is chosen for two slots. */
  lemma NoConflictsInjective(sel: Selections)
    ensures Conflicts(sel) == {} <==> Injective(sel)
  {
    if !Injective(sel) {
      var a, b :| a in sel && b in sel && sel[a].Some? && sel[a] == sel[b] && a != b;
      TwoSlotsConflict(sel, a, b);
    }
    if Conflicts(sel) != {} {
      var e :| e in Conflicts(sel);
      var slots := SlotsOf(sel, e, sel.Keys);
      var a :| a in slots;
      assert |slots - {a}| > 0;
      var b :| b in slots - {a};
      assert !Injective(sel);
    }
  }

  /** Visiting one more slot of the conflict loop. */
  lemma SlotsStep(sel: Selections, keys: set<Slot>, key: Slot, e: Id)
    requires key in sel
    ensures SlotsOf(sel, e, keys + {key}) == SlotsOf(sel, e, keys) + (if sel[key] == Some(e) then {key} else {})
    ensures sel[key].Some? ==> ChosenIn(sel, keys + {key}) == ChosenIn(sel, keys) + {sel[key].value}
    ensures sel[key].None? ==> ChosenIn(sel, keys + {key}) == ChosenIn(sel, keys)
  {
  }

  /** Only someone chosen has a slot. */
  lemma SlotMeansChosen(sel: Selections, keys: set<Slot>, e: Id)
    ensures SlotsOf(sel, e, keys) != {} ==> e in ChosenIn(sel, keys)
  {
    if SlotsOf(sel, e, keys) != {} {
      var key :| key in SlotsOf(sel, e, keys);
    }
  }

  /** The loop that files each chosen employee's slots, then the employees with more than one. */
  method DetectConflicts(sel: Selections) returns (conflicts: set<Id>)
    ensures conflicts == Conflicts(sel)
  {
    var slots: map<Id, set<Slot>> := map[];
    var pending := sel.Keys;
    ghost var seen: set<Slot> := {};
    while pending != {}
      invariant seen + pending == sel.Keys && seen !! pending
      invariant slots.Keys == ChosenIn(sel, seen)
      invariant forall e :: e in slots ==> slots[e] == SlotsOf(sel, e, seen)
      decreases |pending|
    {
      var key :| key in pending;
      slots := FileSlot(sel, seen, key, slots);
      MoveOne(seen, pending, sel.Keys, key);
      pending := pending - {key};
      seen := seen + {key};
    }
    conflicts := set e | e in slots && |slots[e]| > 1;
  }

  /** One step of the conflict loop. */
  method FileSlot(sel: Selections, ghost seen: set<Slot>, key: Slot, slots: map<Id, set<Slot>>)
    returns (slots': map<Id, set<Slot>>)
    requires key in sel && key !in seen
    requires slots.Keys == ChosenIn(sel, seen)
    requires forall e :: e in slots ==> slots[e] == SlotsOf(sel, e, seen)
    ensures slots'.Keys == ChosenIn(sel, seen + {key})
    ensures forall e :: e in slots' ==> slots'[e] == SlotsOf(sel, e, seen + {key})
  {
    slots' := slots;
    SlotsStep(sel, seen, key, "");
    if sel[key].Some? {
      var e := sel[key].value;
      var locs: set<Slot> := {};
      if e in slots {
        locs := slots[e];
      } else {
        SlotMeansChosen(sel, seen, e);
      }
      slots' := slots[e := locs + {key}];
      forall d | d in slots' ensures slots'[d] == SlotsOf(sel, d, seen + {key}) {
        SlotsStep(sel, seen, key, d);
      }
    } else {
      forall d | d in slots' ensures slots'[d] == SlotsOf(sel, d, seen + {key}) {
        SlotsStep(sel, seen, key, d);
      }
    }
  }

  // ---------------------------------------------------------------------------
  // Applying the choices (app.py:1330-1355)

  /** `override_selections.get(key, "__unassigned__")`. */
  function Lookup(sel: Selections, key: Slot): Option<Id>
  {
    if key in sel then sel[key] else None
  }

  /** The employees chosen for slots `0..n-1` of station `sid`, in slot order, "(Unassigned)" slots skipped. */
  function SlotPicks(sel: Selections, sid: Id, n: nat): seq<Id>
  {
    if n == 0 then []
    else SlotPicks(sel, sid, n - 1) + (if Lookup(sel, (sid, n - 1)).Some? then [Lookup(sel, (sid, n - 1)).value] else [])
  }

  /** The number of slots of a station: `range(required_headcount)` is empty for a negative headcount. */
  function SlotCount(st: Station): nat
  {
    if st.requiredHeadcount > 0 then st.requiredHeadcount else 0
  }

  /** The assignment under key `sid`, of station `st`, once the choices are applied. */
  function Overridden(sid: Id, a: Assignment, st: Station, sel: Selections): Assignment
  {
    var picks := SlotPicks(sel, sid, SlotCount(st));
    a.(assignedEmployeeIds := picks, unfilledSlots := st.requiredHeadcount - |picks|,
       isFullyStaffed := st.requiredHeadcount - |picks| == 0)
  }

  function OverriddenAll(asg: map<Id, Assignment>, stations: map<Id, Station>, sel: Selections): map<Id, Assignment>
    requires asg.Keys <= stations.Keys
  {
    map k | k in asg :: Overridden(k, asg[k], stations[k], sel)
  }

  /** The state after "Apply Changes" with no conflict: every list replaced, and the rest of the present employees available. */
  function OverrideApplied(s: State, sel: Selections): State
    requires s.assignments.Keys <= s.stations.Keys
  {
    var asg := OverriddenAll(s.assignments, s.stations, sel);
    s.(assignments := asg, available := (s.employees.Keys - s.absent) - AssignedIds(asg))
  }

  /** The picks of a station are the employees chosen for one of its first `n` slots. */
  lemma {:induction false} SlotPicksMembers(sel: Selections, sid: Id, n: nat, e: Id)
    ensures e in SlotPicks(sel, sid, n) <==> exists i :: 0 <= i < n && Lookup(sel, (sid, i)) == Some(e)
    ensures |SlotPicks(sel, sid, n)| <= n
  {
    if n > 0 {
      SlotPicksMembers(sel, sid, n - 1, e);
      if Lookup(sel, (sid, n - 1)) == Some(e) {
        assert e in SlotPicks(sel, sid, n);
      }
    }
  }

  /** With nobody chosen twice, every station's picks are free of duplicates. */
  lemma {:induction false} SlotPicksDistinct(sel: Selections, sid: Id, n: nat)
    requires Injective(sel)
    ensures Distinct(SlotPicks(sel, sid, n))
  {
    if n > 0 {
      SlotPicksDistinct(sel, sid, n - 1);
      var c := Lookup(sel, (sid, n - 1));
      if c.Some? {
        var e := c.value;
        SlotPicksMembers(sel, sid, n - 1, e);
        forall i | 0 <= i < n - 1 ensures Lookup(sel, (sid, i)) != Some(e) {
          assert (sid, i) != (sid, n - 1);
        }
        DistinctSnoc(SlotPicks(sel, sid, n - 1), e);
      }
    }
  }

  /** Applying the choices keeps the bookkeeping. */
  lemma OverrideWellFormed(s: State, sel: Selections)
    requires WellFormed(s)
    ensures WellFormed(OverrideApplied(s, sel))
  {
    var asg := OverriddenAll(s.assignments, s.stations, sel);
    assert forall k :: k in asg ==> k in s.stations && asg[k].stationId == k;
  }

  /**
   * Every station's new open-slot count and status agree with its new list, which
   * is no longer than its headcount allows.
   */
  lemma OverrideBookkept(s: State, sel: Selections, k: Id)
    requires WellFormed(s) && k in s.assignments
    ensures k in s.stations && k in OverrideApplied(s, sel).assignments
    ensures Bookkept(s.stations[k], OverrideApplied(s, sel).assignments[k])
    ensures |OverrideApplied(s, sel).assignments[k].assignedEmployeeIds| <= SlotCount(s.stations[k])
  {
    SlotPicksMembers(sel, k, SlotCount(s.stations[k]), "");
  }

  /** With no conflict, no list holds anyone twice and no employee is on two stations' lists. */
  lemma OverrideNoDoubleBooking(s: State, sel: Selections, k1: Id, k2: Id, e: Id)
    requires WellFormed(s) && Conflicts(sel) == {}
    requires k1 in s.assignments && k2 in s.assignments
    ensures k1 in OverrideApplied(s, sel).assignments && k2 in OverrideApplied(s, sel).assignments
    ensures Distinct(OverrideApplied(s, sel).assignments[k1].assignedEmployeeIds)
    ensures (e in OverrideApplied(s, sel).assignments[k1].assignedEmployeeIds &&
             e in OverrideApplied(s, sel).assignments[k2].assignedEmployeeIds) ==> k1 == k2
  {
    NoConflictsInjective(sel);
    var n1, n2 := SlotCount(s.stations[k1]), SlotCount(s.stations[k2]);
    SlotPicksDistinct(sel, k1, n1);
    SlotPicksMembers(sel, k1, n1, e);
    SlotPicksMembers(sel, k2, n2, e);
    if e in SlotPicks(sel, k1, n1) && e in SlotPicks(sel, k2, n2) {
      var i :| 0 <= i < n1 && Lookup(sel, (k1, i)) == Some(e);
      var j :| 0 <= j < n2 && Lookup(sel, (k2, j)) == Some(e);
      assert (k1, i) == (k2, j);
    }
  }

  /**
   * With no conflict and only present employees chosen (as the options
   * guarantee), the new schedule and the roster agree.
   */
  lemma OverrideAccounted(s: State, sel: Selections)
    requires WellFormed(s) && Conflicts(sel) == {}
    requires ChosenIn(sel, sel.Keys) <= s.employees.Keys - s.absent
    ensures Accounted(OverrideApplied(s, sel))
  {
    var r := OverrideApplied(s, sel);
    forall k | k in r.assignments ensures Distinct(r.assignments[k].assignedEmployeeIds) {
      OverrideNoDoubleBooking(s, sel, k, k, "");
    }
    forall x | x in AssignedIds(r.assignments) ensures x in s.employees.Keys - s.absent {
      var k :| k in r.assignments && x in r.assignments[k].assignedEmployeeIds;
      SlotPicksMembers(sel, k, SlotCount(s.stations[k]), x);
      var i :| 0 <= i < SlotCount(s.stations[k]) && Lookup(sel, (k, i)) == Some(x);
      assert x in ChosenIn(sel, sel.Keys);
    }
  }

  /** The slot loop of one station. */
  method PickSlots(sel: Selections, sid: Id, headcount: int) returns (picks: seq<Id>)
    ensures picks == SlotPicks(sel, sid, if headcount > 0 then headcount else 0)
  {
    picks := [];
    var i := 0;
    while i < headcount
      invariant 0 <= i <= (if headcount > 0 then headcount else 0)
      invariant picks == SlotPicks(sel, sid, i)
    {
      var choice: Option<Id> := None;
      if (sid, i) in sel {
        choice := sel[(sid, i)];
      }
      if choice.Some? {
        picks := picks + [choice.value];
      }
      i := i + 1;
    }
  }

  /** The rewrite the apply loop makes to the entry under each key. */
  function OverrideAt(stations: map<Id, Station>, sel: Selections): (Id, Assignment) -> Assignment
  {
    (k: Id, a: Assignment) => if k in stations then Overridden(k, a, stations[k], sel) else a
  }

  /** The apply loop has replaced the lists of the stations in `seen` and gathered their employees. */
  predicate AppliedSoFar(asg0: map<Id, Assignment>, stations: map<Id, Station>, sel: Selections, seen: set<Id>,
                         asg: map<Id, Assignment>, newAssigned: set<Id>)
  {
    MappedSoFar(asg0, OverrideAt(stations, sel), seen, asg) && newAssigned == AssignedIn(asg, seen)
  }

  /** The loop over `scheduler.assignments` that replaces each list and gathers `new_assigned_ids`. */
  method ApplyChoices(s: Scheduler, sel: Selections) returns (newAssigned: set<Id>)
    requires s.assignments.Keys <= s.stations.Keys
    modifies s`assignments
    ensures s.assignments == OverriddenAll(old(s.assignments), s.stations, sel)
    ensures newAssigned == AssignedIds(s.assignments)
  {
    ghost var asg0 := s.assignments;
    var pending := s.assignments.Keys;
    ghost var seen: set<Id> := {};
    newAssigned := {};
    while pending != {}
      invariant seen + pending == asg0.Keys && seen !! pending
      invariant AppliedSoFar(asg0, s.stations, sel, seen, s.assignments, newAssigned)
      decreases |pending|
    {
      var k :| k in pending;
      newAssigned := ApplyOne(s, sel, k, asg0, seen, newAssigned);
      MoveOne(seen, pending, asg0.Keys, k);
      pending := pending - {k};
      seen := seen + {k};
    }
    AppliedDone(asg0, s.stations, sel, seen, s.assignments, newAssigned);
  }

  /** Once every station is visited, every list is replaced and everyone on the new lists gathered. */
  lemma AppliedDone(asg0: map<Id, Assignment>, stations: map<Id, Station>, sel: Selections, seen: set<Id>,
                    asg: map<Id, Assignment>, newAssigned: set<Id>)
    requires AppliedSoFar(asg0, stations, sel, seen, asg, newAssigned) && seen == asg0.Keys && asg0.Keys <= stations.Keys
    ensures asg == OverriddenAll(asg0, stations, sel) && newAssigned == AssignedIds(asg)
  {
    MappedDone(asg0, OverrideAt(stations, sel), seen, asg);
    AssignedInAll(asg);
  }

  /** One station of the apply loop. */
  method ApplyOne(s: Scheduler, sel: Selections, k: Id, ghost asg0: map<Id, Assignment>, ghost seen: set<Id>,
                  newAssigned: set<Id>) returns (newAssigned': set<Id>)
    requires k in asg0 && k !in seen && k in s.stations
    requires AppliedSoFar(asg0, s.stations, sel, seen, s.assignments, newAssigned)
    modifies s`assignments
    ensures AppliedSoFar(asg0, s.stations, sel, seen + {k}, s.assignments, newAssigned')
  {
    MappedStep(asg0, OverrideAt(s.stations, sel), seen, s.assignments, k);
    var station := s.stations[k];
    var picks := PickSlots(sel, k, station.requiredHeadcount);
    var assignment := s.assignments[k];
    assignment := assignment.(assignedEmployeeIds := picks, unfilledSlots := station.requiredHeadcount - |picks|);
    assignment := assignment.(isFullyStaffed := assignment.unfilledSlots == 0);
    assert assignment == OverrideAt(s.stations, sel)(k, s.assignments[k]);
    AssignedInUpdate(s.assignments, seen, k, assignment);
    s.assignments := s.assignments[k := assignment];
    newAssigned' := newAssigned + Elems(picks);
  }

  /** The lists replaced and the available set recomputed, without the bookkeeping. */
  method ApplyAll(s: Scheduler, sel: Selections)
    requires s.assignments.Keys <= s.stations.Keys
    modifies s`assignments, s`available
    ensures s.assignments == OverriddenAll(old(s.assignments), s.stations, sel)
    ensures s.available == (s.employees.Keys - s.absent) - AssignedIds(s.assignments)
  {
    var newAssigned := ApplyChoices(s, sel);
    s.available := (s.employees.Keys - s.absent) - newAssigned;
  }

  /**
   * "Apply Changes": when someone is chosen for two slots, the conflicts are
   * reported and nothing changes; otherwise every station's list is replaced by
   * its chosen employees in slot order, its open-slot count and status follow,
   * and the present employees left over are available.
   */
  method ApplyOverride(s: Scheduler, sel: Selections) returns (conflicts: set<Id>)
    requires s.Valid()
    modifies s`assignments, s`available
    ensures s.Valid()
    ensures conflicts == Conflicts(sel)
    ensures conflicts != {} ==> s.Contents() == old(s.Contents())
    ensures conflicts == {} ==> s.Contents() == OverrideApplied(old(s.Contents()), sel)
  {
    conflicts := DetectConflicts(sel);
    if conflicts == {} {
      ghost var s0 := s.Contents();
      OverrideWellFormed(s0, sel);
      ApplyAll(s, sel);
      assert s.Contents() == OverrideApplied(s0, sel);
    }
  }

  // ---------------------------------------------------------------------------
  // Training recommendations (app.py:1366-1411)

  /** One recommendation: `trainer`, unassigned, is better at the station than `trainee`, who works there. */
  datatype Recommendation = Recommendation(trainer: Id, stationId: Id, trainee: Id, traineeLevel: int, trainerLevel: int)

  /** The recommendations for trainer `e` at station `k` drawn from the employees `ids` on its list. */
  function RecsAmongIds(s: State, e: Id, k: Id, ids: seq<Id>): set<Recommendation>
    requires e in s.employees
  {
    var level := GetCompetency(s.employees[e], k);
    set a | a in ids && a in s.employees && level > 0 && level > GetCompetency(s.employees[a], k)
      :: Recommendation(e, k, a, GetCompetency(s.employees[a], k), level)
  }

  /** The recommendations for trainer `e` at the stations in `keys`. */
  function RecsAmong(s: State, e: Id, keys: set<Id>): set<Recommendation>
    requires e in s.employees
  {
    set k, r | k in keys && k in s.assignments && r in RecsAmongIds(s, e, k, s.assignments[k].assignedEmployeeIds) :: r
  }

  /** The recommendations for trainer `e`. */
  function RecsFor(s: State, e: Id): set<Recommendation>
    requires e in s.employees
  {
    RecsAmong(s, e, s.assignments.Keys)
  }

  lemma RecsIdsSnoc(s: State, e: Id, k: Id, ids: seq<Id>, a: Id)
    requires e in s.employees
    ensures var level := GetCompetency(s.employees[e], k);
      RecsAmongIds(s, e, k, ids + [a]) == RecsAmongIds(s, e, k, ids) +
        if a in s.employees && level > 0 && level > GetCompetency(s.employees[a], k)
        then {Recommendation(e, k, a, GetCompetency(s.employees[a], k), level)} else {}
  {
  }

  lemma RecsAmongStep(s: State, e: Id, keys: set<Id>, k: Id)
    requires e in s.employees && k in s.assignments
    ensures RecsAmong(s, e, keys + {k}) == RecsAmong(s, e, keys) + RecsAmongIds(s, e, k, s.assignments[k].assignedEmployeeIds)
  {
    forall r | r in RecsAmongIds(s, e, k, s.assignments[k].assignedEmployeeIds) ensures r in RecsAmong(s, e, keys + {k}) {
    }
  }

  /**
   * Precisely the right recommendations: one names an unassigned trainer with a
   * positive level at the station above the level of a known employee on the
   * station's list, who is therefore someone else.
   */
  lemma RecommendationSound(s: State, e: Id, r: Recommendation)
    requires e in UnassignedIn(s) && r in RecsFor(s, e)
    ensures r.trainer == e && r.stationId in s.assignments
    ensures r.trainee in s.assignments[r.stationId].assignedEmployeeIds && r.trainee in s.employees
    ensures r.trainerLevel == GetCompetency(s.employees[e], r.stationId) && r.trainerLevel > 0
    ensures r.traineeLevel == GetCompetency(s.employees[r.trainee], r.stationId) && r.trainerLevel > r.traineeLevel
    ensures r.trainee != e
  {
    var k :| k in s.assignments && r in RecsAmongIds(s, e, k, s.assignments[k].assignedEmployeeIds);
    var a :| a in s.assignments[k].assignedEmployeeIds && a in s.employees &&
             r == Recommendation(e, k, a, GetCompetency(s.employees[a], k), GetCompetency(s.employees[e], k));
    assert a in AssignedIds(s.assignments);
  }

  /** And every such pair is recommended. */
  lemma RecommendationComplete(s: State, e: Id, k: Id, a: Id)
    requires e in s.employees && k in s.assignments && a in s.assignments[k].assignedEmployeeIds && a in s.employees
    requires GetCompetency(s.employees[e], k) > 0 && GetCompetency(s.employees[e], k) > GetCompetency(s.employees[a], k)
    ensures Recommendation(e, k, a, GetCompetency(s.employees[a], k), GetCompetency(s.employees[e], k)) in RecsFor(s, e)
  {
    var r := Recommendation(e, k, a, GetCompetency(s.employees[a], k), GetCompetency(s.employees[e], k));
    assert r in RecsAmongIds(s, e, k, s.assignments[k].assignedEmployeeIds);
  }

  /** The loop over one station's list. */
  method TraineesAt(s: Scheduler, e: Id, k: Id) returns (recs: seq<Recommendation>)
    requires e in s.employees && k in s.assignments
    ensures Elems(recs) == RecsAmongIds(s.Contents(), e, k, s.assignments[k].assignedEmployeeIds)
  {
    var emp := s.employees[e];
    var level := GetCompetency(emp, k);
    var ids := s.assignments[k].assignedEmployeeIds;
    recs := [];
    if level > 0 {
      var i := 0;
      while i < |ids|
        invariant 0 <= i <= |ids|
        invariant Elems(recs) == RecsAmongIds(s.Contents(), e, k, ids[..i])
      {
        var a := ids[i];
        RecsIdsSnoc(s.Contents(), e, k, ids[..i], a);
        assert ids[..i + 1] == ids[..i] + [a];
        if a in s.employees {
          var traineeLevel := GetCompetency(s.employees[a], k);
          if level > traineeLevel {
            var r := Recommendation(e, k, a, traineeLevel, level);
            DistinctSnoc(recs, r);
            recs := recs + [r];
          }
        }
        i := i + 1;
      }
      assert ids[..|ids|] == ids;
    } else {
      assert RecsAmongIds(s.Contents(), e, k, ids) == {};
    }
  }

  /** The loop over every station, for one unassigned employee. */
  method RecommendFor(s: Scheduler, e: Id) returns (recs: seq<Recommendation>)
    requires e in s.employees
    ensures Elems(recs) == RecsFor(s.Contents(), e)
  {
    var pending := s.assignments.Keys;
    ghost var seen: set<Id> := {};
    recs := [];
    while pending != {}
      invariant seen + pending == s.assignments.Keys && seen !! pending
      invariant Elems(recs) == RecsAmong(s.Contents(), e, seen)
      decreases |pending|
    {
      var k :| k in pending;
      var more := TraineesAt(s, e, k);
      RecsAmongStep(s.Contents(), e, seen, k);
      ElemsConcat(recs, more);
      recs := recs + more;
      MoveOne(seen, pending, s.assignments.Keys, k);
      pending := pending - {k};
      seen := seen + {k};
    }
  }

  lemma ElemsConcat<T>(a: seq<T>, b: seq<T>)
    ensures Elems(a + b) == Elems(a) + Elems(b)
  {
    forall x | x in Elems(a + b) ensures x in Elems(a) + Elems(b) {
      var i :| 0 <= i < |a + b| && (a + b)[i] == x;
      if i >= |a| {
        assert b[i - |a|] == x;
      }
    }
  }

  /**
   * The panel's two lists: each employee listed with recommendations has
   * exactly their recommendations, and each listed without has none.
   */
  predicate RecsFiled(st: State, withRecs: map<Id, seq<Recommendation>>, without: set<Id>)
  {
    && withRecs.Keys !! without
    && (forall e :: e in withRecs ==> e in st.employees && withRecs[e] != [] && Elems(withRecs[e]) == RecsFor(st, e))
    && (forall e :: e in without ==> e in st.employees && RecsFor(st, e) == {})
  }

  /**
   * The "Unassigned Employees" panel: every unassigned employee either has their
   * recommendations listed or is listed as having none.
   */
  method TrainingRecommendations(s: Scheduler) returns (withRecs: map<Id, seq<Recommendation>>, without: set<Id>)
    requires s.assignments.Keys <= s.stations.Keys
    ensures withRecs.Keys + without == UnassignedIn(s.Contents())
    ensures RecsFiled(s.Contents(), withRecs, without)
  {
    var unassigned := UnassignedEmployees(s);
    var pending := unassigned;
    ghost var seen: set<Id> := {};
    withRecs, without := map[], {};
    while pending != {}
      invariant seen + pending == unassigned && seen !! pending
      invariant withRecs.Keys + without == seen
      invariant RecsFiled(s.Contents(), withRecs, without)
      decreases |pending|
    {
      var e :| e in pending;
      withRecs, without := FileRecs(s, e, withRecs, without);
      MoveOne(seen, pending, unassigned, e);
      pending := pending - {e};
      seen := seen + {e};
    }
  }

  /** One employee of the panel's loop. */
  method FileRecs(s: Scheduler, e: Id, withRecs: map<Id, seq<Recommendation>>, without: set<Id>)
    returns (withRecs': map<Id, seq<Recommendation>>, without': set<Id>)
    requires e in s.employees && e !in withRecs && e !in without
    requires RecsFiled(s.Contents(), withRecs, without)
    ensures withRecs'.Keys + without' == withRecs.Keys + without + {e}
    ensures RecsFiled(s.Contents(), withRecs', without')
  {
    var recs := RecommendFor(s, e);
    if recs != [] {
      withRecs', without' := withRecs[e := recs], without;
    } else {
      withRecs', without' := withRecs, without + {e};
    }
  }
}
