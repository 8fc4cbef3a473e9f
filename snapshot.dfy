/**
 * The scheduler's state as a value, and its persisted form (`to_json` / `from_json`)
 * modelled as a record of lists of dictionaries rather than as JSON text.
 */
module Snapshot {
  import opened Wrappers
  import opened Models
  import opened Lists
  import opened Scoring

  /** Everything a `MatrixScheduler` holds; `stationOrder` is the insertion order of the stations dictionary. */
  datatype State = State(
    stations: map<Id, Station>,
    stationOrder: seq<Id>,
    employees: map<Id, Employee>,
    assignments: map<Id, Assignment>,
    available: set<Id>,
    absent: set<Id>,
    logs: seq<AssignmentLog>,
    scenario: ScenarioWeights)

  /**
   * The bookkeeping every scheduler operation keeps: dictionaries keyed by their
   * entries' own ids, assignments only for known stations, the available and
   * absent sets made of known employees and never overlapping.
   */
  predicate WellFormed(s: State)
  {
    && Distinct(s.stationOrder)
    && Elems(s.stationOrder) == s.stations.Keys
    && (forall k :: k in s.stations ==> s.stations[k].id == k)
    && (forall k :: k in s.employees ==> s.employees[k].id == k)
    && (forall k :: k in s.assignments ==> k in s.stations && s.assignments[k].stationId == k)
    && s.available <= s.employees.Keys
    && s.absent <= s.employees.Keys
    && s.available !! s.absent
  }

  /**
   * Replacing the assignments, the available set and the scenario keeps the
   * bookkeeping when the new assignments are keyed by known stations and the new
   * available set is made of known employees who are not absent.
   */
  lemma WellFormedReassigned(s: State, asg: map<Id, Assignment>, avail: set<Id>, sc: ScenarioWeights)
    requires WellFormed(s)
    requires forall k :: k in asg ==> k in s.stations && asg[k].stationId == k
    requires avail <= s.employees.Keys - s.absent
    ensures WellFormed(s.(assignments := asg, available := avail, scenario := sc))
  {
  }

  /** Replacing the assignments and shrinking the available set keeps the bookkeeping. */
  lemma WellFormedShrunk(s: State, asg: map<Id, Assignment>, avail: set<Id>)
    requires WellFormed(s)
    requires forall k :: k in asg ==> k in s.stations && asg[k].stationId == k
    requires avail <= s.available
    ensures WellFormed(s.(assignments := asg, available := avail))
  {
  }

  /** Marking a known employee absent and no longer available keeps the bookkeeping. */
  lemma WellFormedMarkedAbsent(s: State, eid: Id)
    requires WellFormed(s) && eid in s.employees
    ensures WellFormed(s.(available := s.available - {eid}, absent := s.absent + {eid}))
  {
  }

  /** The persisted form: each top-level key may be missing. */
  datatype SnapshotDict = SnapshotDict(
    stations: Option<seq<StationDict>>,
    employees: Option<seq<EmployeeDict>>,
    assignments: Option<seq<AssignmentDict>>,
    availableEmployees: Option<seq<Id>>,
    absentEmployees: Option<seq<Id>>,
    assignmentLogs: Option<seq<LogDict>>)

  /** `[from_dict(d) for d in ds]`: the first record that fails to load is the error. */
  function DecodeAll<D, T>(ds: seq<D>, decode: D -> Result<T, Error>): (r: Result<seq<T>, Error>)
    ensures r.Ok? ==> |r.value| == |ds| && forall i :: 0 <= i < |ds| ==> decode(ds[i]) == Ok(r.value[i])
  {
    if ds == [] then Ok([])
    else
      match DecodeAll(ds[..|ds| - 1], decode)
      case Err(e) => Err(e)
      case Ok(xs) =>
        match decode(ds[|ds| - 1])
        case Err(e) => Err(e)
        case Ok(x) => Ok(xs + [x])
  }

  /** Records that each load back to the corresponding value load back to the whole list. */
  lemma {:induction false} DecodeAllInverse<D, T>(ds: seq<D>, xs: seq<T>, decode: D -> Result<T, Error>)
    requires |ds| == |xs| && forall i :: 0 <= i < |ds| ==> decode(ds[i]) == Ok(xs[i])
    ensures DecodeAll(ds, decode) == Ok(xs)
  {
    if ds != [] {
      DecodeAllInverse(ds[..|ds| - 1], xs[..|xs| - 1], decode);
      assert xs == xs[..|xs| - 1] + [xs[|xs| - 1]];
    }
  }

  /** `{id(x): x for x in xs}`: a later entry with the same id replaces an earlier one. */
  function ToMap<T>(xs: seq<T>, id: T -> Id): (m: map<Id, T>)
    ensures forall k :: k in m ==> id(m[k]) == k
  {
    if xs == [] then map[] else ToMap(xs[..|xs| - 1], id)[id(xs[|xs| - 1]) := xs[|xs| - 1]]
  }

  /** The keys of `{id(x): x for x in xs}`, in the dictionary's insertion order (first occurrence). */
  function KeyOrder<T>(xs: seq<T>, id: T -> Id): (r: seq<Id>)
    ensures Distinct(r)
    ensures Elems(r) == ToMap(xs, id).Keys
  {
    if xs == [] then []
    else
      var prev := KeyOrder(xs[..|xs| - 1], id);
      var k := id(xs[|xs| - 1]);
      if k in prev then prev
      else
        assert Elems(prev + [k]) == Elems(prev) + {k};
        prev + [k]
  }

  /** Listing a map's values once each under distinct keys rebuilds the map on those keys. */
  lemma {:induction false} ToMapOfValues<T>(keys: seq<Id>, xs: seq<T>, id: T -> Id, m: map<Id, T>)
    requires Distinct(keys) && Elems(keys) <= m.Keys && |keys| == |xs|
    requires forall i :: 0 <= i < |keys| ==> xs[i] == m[keys[i]]
    requires forall k :: k in m ==> id(m[k]) == k
    ensures ToMap(xs, id).Keys == Elems(keys)
    ensures forall k :: k in Elems(keys) ==> ToMap(xs, id)[k] == m[k]
  {
    if keys != [] {
      var n := |keys| - 1;
      var init, xinit := keys[..n], xs[..n];
      InitLast(keys);
      DistinctSnoc(init, keys[n]);
      assert forall i :: 0 <= i < n ==> xinit[i] == m[init[i]];
      ToMapOfValues(init, xinit, id, m);
      assert id(xs[n]) == keys[n];
    }
  }

  /** The insertion order of the rebuilt map is the order the keys were listed in. */
  lemma {:induction false} KeyOrderOfValues<T>(keys: seq<Id>, xs: seq<T>, id: T -> Id)
    requires Distinct(keys) && |keys| == |xs|
    requires forall i :: 0 <= i < |keys| ==> id(xs[i]) == keys[i]
    ensures KeyOrder(xs, id) == keys
  {
    if keys != [] {
      var n := |keys| - 1;
      var init := keys[..n];
      assert Distinct(init);
      KeyOrderOfValues(init, xs[..n], id);
      assert keys[n] !in init;
      assert keys == init + [keys[n]];
    }
  }

  function StationIdOf(s: Station): Id { s.id }
  function EmployeeIdOf(e: Employee): Id { e.id }
  function AssignmentKeyOf(a: Assignment): Id { a.stationId }

  /**
   * `MatrixScheduler.from_json`: the stations and employees keys are required, the
   * rest default to empty lists; the available and absent sets are restored as
   * written, not recomputed; the scenario is not persisted and comes back as Balanced.
   */
  function FromSnapshot(snap: SnapshotDict): Result<State, Error>
  {
    if snap.stations.None? then Err(MissingField("stations"))
    else match DecodeAll(snap.stations.value, StationFromDict)
    case Err(e) => Err(e)
    case Ok(ss) =>
      if snap.employees.None? then Err(MissingField("employees"))
      else match DecodeAll(snap.employees.value, EmployeeFromDict)
      case Err(e) => Err(e)
      case Ok(es) =>
        match DecodeAll(snap.assignments.GetOr([]), AssignmentFromDict)
        case Err(e) => Err(e)
        case Ok(asg) =>
          match DecodeAll(snap.assignmentLogs.GetOr([]), LogFromDict)
          case Err(e) => Err(e)
          case Ok(logs) =>
            Ok(State(ToMap(ss, StationIdOf), KeyOrder(ss, StationIdOf), ToMap(es, EmployeeIdOf),
                     ToMap(asg, AssignmentKeyOf), Elems(snap.availableEmployees.GetOr([])),
                     Elems(snap.absentEmployees.GetOr([])), logs, Balanced))
  }

  /** A snapshot missing a required top-level key does not load. */
  lemma MissingTopLevelKeys(snap: SnapshotDict)
    ensures snap.stations.None? ==> FromSnapshot(snap) == Err(MissingField("stations"))
    ensures snap.stations.Some? && DecodeAll(snap.stations.value, StationFromDict).Ok? && snap.employees.None? ==>
      FromSnapshot(snap) == Err(MissingField("employees"))
  {
  }

  /** A snapshot without the available list restores nobody as available, whatever the employees. */
  lemma MissingAvailableRestoresNone(snap: SnapshotDict)
    requires FromSnapshot(snap).Ok? && snap.availableEmployees.None?
    ensures FromSnapshot(snap).value.available == {}
  {
  }

  /** Loading keeps the ids consistent: stations in order of first appearance, every dictionary keyed by its entries' ids. */
  lemma FromSnapshotKeyed(snap: SnapshotDict)
    requires FromSnapshot(snap).Ok?
    ensures var s := FromSnapshot(snap).value;
      && Distinct(s.stationOrder) && Elems(s.stationOrder) == s.stations.Keys
      && (forall k :: k in s.stations ==> s.stations[k].id == k)
      && (forall k :: k in s.employees ==> s.employees[k].id == k)
      && (forall k :: k in s.assignments ==> s.assignments[k].stationId == k)
      && s.scenario == Balanced
  {
  }

  /** `[m[k] for k in ks]`. */
  function ValuesAt<T>(ks: seq<Id>, m: map<Id, T>): (r: seq<T>)
    requires Elems(ks) <= m.Keys
    ensures |r| == |ks|
    ensures forall i :: 0 <= i < |ks| ==> r[i] == m[ks[i]]
  {
    if ks == [] then []
    else
      assert Elems(ks[..|ks| - 1]) <= Elems(ks);
      assert ks[|ks| - 1] in Elems(ks);
      ValuesAt(ks[..|ks| - 1], m) + [m[ks[|ks| - 1]]]
  }

  /** `[f(x) for x in xs]`. */
  function MapSeq<A, B>(xs: seq<A>, f: A -> B): (r: seq<B>)
    ensures |r| == |xs|
    ensures forall i :: 0 <= i < |xs| ==> r[i] == f(xs[i])
  {
    if xs == [] then [] else MapSeq(xs[..|xs| - 1], f) + [f(xs[|xs| - 1])]
  }

  /**
   * `MatrixScheduler.to_json`: stations in dictionary order; employees, assignments
   * and the two sets listed in the orders `employeeIds`, `assignmentIds`,
   * `availableIds` and `absentIds`; the scenario is not written.
   */
  function ToSnapshot(s: State, employeeIds: seq<Id>, assignmentIds: seq<Id>, availableIds: seq<Id>,
                      absentIds: seq<Id>): SnapshotDict
    requires Elems(s.stationOrder) <= s.stations.Keys
    requires Elems(employeeIds) <= s.employees.Keys && Elems(assignmentIds) <= s.assignments.Keys
  {
    SnapshotDict(
      Some(MapSeq(ValuesAt(s.stationOrder, s.stations), StationToDict)),
      Some(MapSeq(ValuesAt(employeeIds, s.employees), EmployeeToDict)),
      Some(MapSeq(ValuesAt(assignmentIds, s.assignments), AssignmentToDict)),
      Some(availableIds),
      Some(absentIds),
      Some(MapSeq(s.logs, LogToDict)))
  }

  /** Records written by `to_dict` load back by `from_dict`. */
  lemma DecodeEncodedStations(xs: seq<Station>)
    ensures DecodeAll(MapSeq(xs, StationToDict), StationFromDict) == Ok(xs)
  {
    forall i | 0 <= i < |xs| ensures StationFromDict(MapSeq(xs, StationToDict)[i]) == Ok(xs[i]) {
      StationRoundTrip(xs[i]);
    }
    DecodeAllInverse(MapSeq(xs, StationToDict), xs, StationFromDict);
  }

  lemma DecodeEncodedEmployees(xs: seq<Employee>)
    ensures DecodeAll(MapSeq(xs, EmployeeToDict), EmployeeFromDict) == Ok(xs)
  {
    forall i | 0 <= i < |xs| ensures EmployeeFromDict(MapSeq(xs, EmployeeToDict)[i]) == Ok(xs[i]) {
      EmployeeRoundTrip(xs[i]);
    }
    DecodeAllInverse(MapSeq(xs, EmployeeToDict), xs, EmployeeFromDict);
  }

  lemma DecodeEncodedAssignments(xs: seq<Assignment>)
    ensures DecodeAll(MapSeq(xs, AssignmentToDict), AssignmentFromDict) == Ok(xs)
  {
    forall i | 0 <= i < |xs| ensures AssignmentFromDict(MapSeq(xs, AssignmentToDict)[i]) == Ok(xs[i]) {
      AssignmentRoundTrip(xs[i]);
    }
    DecodeAllInverse(MapSeq(xs, AssignmentToDict), xs, AssignmentFromDict);
  }

  lemma DecodeEncodedLogs(xs: seq<AssignmentLog>)
    ensures DecodeAll(MapSeq(xs, LogToDict), LogFromDict) == Ok(xs)
  {
    forall i | 0 <= i < |xs| ensures LogFromDict(MapSeq(xs, LogToDict)[i]) == Ok(xs[i]) {
      LogRoundTrip(xs[i]);
    }
    DecodeAllInverse(MapSeq(xs, LogToDict), xs, LogFromDict);
  }

  /** Listing every value of a dictionary keyed by its entries' ids rebuilds the dictionary. */
  lemma ToMapOfAll<T>(keys: seq<Id>, m: map<Id, T>, id: T -> Id)
    requires Distinct(keys) && Elems(keys) == m.Keys
    requires forall k :: k in m ==> id(m[k]) == k
    ensures ToMap(ValuesAt(keys, m), id) == m
  {
    ToMapOfValues(keys, ValuesAt(keys, m), id, m);
  }

  /** Every record written loads back, so loading succeeds and rebuilds the dictionaries from the listed values. */
  lemma SnapshotDecodes(s: State, employeeIds: seq<Id>, assignmentIds: seq<Id>, availableIds: seq<Id>,
                        absentIds: seq<Id>)
    requires Elems(s.stationOrder) <= s.stations.Keys
    requires Elems(employeeIds) <= s.employees.Keys && Elems(assignmentIds) <= s.assignments.Keys
    ensures var ss, es := ValuesAt(s.stationOrder, s.stations), ValuesAt(employeeIds, s.employees);
      FromSnapshot(ToSnapshot(s, employeeIds, assignmentIds, availableIds, absentIds)) ==
        Ok(State(ToMap(ss, StationIdOf), KeyOrder(ss, StationIdOf), ToMap(es, EmployeeIdOf),
                 ToMap(ValuesAt(assignmentIds, s.assignments), AssignmentKeyOf), Elems(availableIds), Elems(absentIds),
                 s.logs, Balanced))
  {
    DecodeEncodedStations(ValuesAt(s.stationOrder, s.stations));
    DecodeEncodedEmployees(ValuesAt(employeeIds, s.employees));
    DecodeEncodedAssignments(ValuesAt(assignmentIds, s.assignments));
    DecodeEncodedLogs(s.logs);
  }

  /**
   * Saving and loading again gives back the whole state, except that the scenario
   * comes back as Balanced; the listing orders of the employees, assignments and
   * sets make no difference.
   */
  lemma SnapshotRoundTrip(s: State, employeeIds: seq<Id>, assignmentIds: seq<Id>, availableIds: seq<Id>,
                          absentIds: seq<Id>)
    requires WellFormed(s)
    requires Distinct(employeeIds) && Elems(employeeIds) == s.employees.Keys
    requires Distinct(assignmentIds) && Elems(assignmentIds) == s.assignments.Keys
    requires Elems(availableIds) == s.available && Elems(absentIds) == s.absent
    ensures FromSnapshot(ToSnapshot(s, employeeIds, assignmentIds, availableIds, absentIds)) == Ok(s.(scenario := Balanced))
  {
    SnapshotDecodes(s, employeeIds, assignmentIds, availableIds, absentIds);
    DictionariesRebuilt(s, employeeIds, assignmentIds);
  }

  /** The dictionaries rebuilt from the listed values are the original ones, stations in their original order. */
  lemma DictionariesRebuilt(s: State, employeeIds: seq<Id>, assignmentIds: seq<Id>)
    requires WellFormed(s)
    requires Distinct(employeeIds) && Elems(employeeIds) == s.employees.Keys
    requires Distinct(assignmentIds) && Elems(assignmentIds) == s.assignments.Keys
    ensures ToMap(ValuesAt(s.stationOrder, s.stations), StationIdOf) == s.stations
    ensures KeyOrder(ValuesAt(s.stationOrder, s.stations), StationIdOf) == s.stationOrder
    ensures ToMap(ValuesAt(employeeIds, s.employees), EmployeeIdOf) == s.employees
    ensures ToMap(ValuesAt(assignmentIds, s.assignments), AssignmentKeyOf) == s.assignments
  {
    ToMapOfAll(s.stationOrder, s.stations, StationIdOf);
    ToMapOfAll(employeeIds, s.employees, EmployeeIdOf);
    ToMapOfAll(assignmentIds, s.assignments, AssignmentKeyOf);
    KeyOrderOfValues(s.stationOrder, ValuesAt(s.stationOrder, s.stations), StationIdOf);
  }

  /** Entering one more record into `{id(x): x for x in xs}`. */
  lemma ToMapSnoc<T>(xs: seq<T>, x: T, id: T -> Id)
    ensures ToMap(xs + [x], id) == ToMap(xs, id)[id(x) := x]
  {
    assert (xs + [x])[..|xs|] == xs;
  }

  /** Loading one more record after a prefix that loaded. */
  lemma DecodeAllStep<D, T>(ds: seq<D>, i: nat, decode: D -> Result<T, Error>)
    requires i < |ds| && DecodeAll(ds[..i], decode).Ok?
    ensures decode(ds[i]).Err? ==> DecodeAll(ds[..i + 1], decode) == Err(decode(ds[i]).error)
    ensures decode(ds[i]).Ok? ==>
      DecodeAll(ds[..i + 1], decode) == Ok(DecodeAll(ds[..i], decode).value + [decode(ds[i]).value])
  {
    assert ds[..i + 1][..i] == ds[..i];
  }

  /** Once a prefix fails to load, so does every longer prefix, with the same error. */
  lemma {:induction false} DecodeAllErrorSticks<D, T>(ds: seq<D>, i: nat, j: nat, decode: D -> Result<T, Error>)
    requires i <= j <= |ds| && DecodeAll(ds[..i], decode).Err?
    ensures DecodeAll(ds[..j], decode) == DecodeAll(ds[..i], decode)
    decreases j - i
  {
    if i < j {
      DecodeAllErrorSticks(ds, i, j - 1, decode);
      assert ds[..j][..j - 1] == ds[..j - 1];
    }
  }
}
