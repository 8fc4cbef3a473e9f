/**
 * The outcome of `handle_absence`, stated on values: the absent employee is struck
 * from every list that holds them, and then the stations struck from are
 * rebalanced one after another, each drawing on what the earlier ones left.
 */
module Absence {
  import opened Models
  import opened Lists
  import opened Greedy

  /** One assignment after `employee_id` is struck from it: first occurrence removed, one slot more open, not fully staffed. */
  function Strike(a: Assignment, eid: Id): Assignment
  {
    a.(assignedEmployeeIds := RemoveFirst(a.assignedEmployeeIds, eid),
       unfilledSlots := a.unfilledSlots + 1, isFullyStaffed := false)
  }

  /** The stations whose list holds `eid`. */
  function AffectedBy(asg: map<Id, Assignment>, eid: Id): set<Id>
  {
    set k | k in asg && eid in asg[k].assignedEmployeeIds
  }

  /** Every assignment holding `eid` struck, the others as they were. */
  function StruckAll(asg: map<Id, Assignment>, eid: Id): map<Id, Assignment>
  {
    map k | k in asg :: if eid in asg[k].assignedEmployeeIds then Strike(asg[k], eid) else asg[k]
  }

  /** The strike loop has visited `seen`: those stations holding `eid` are struck, the rest untouched. */
  predicate StruckSoFar(asg0: map<Id, Assignment>, eid: Id, seen: set<Id>, asg: map<Id, Assignment>)
  {
    && asg.Keys == asg0.Keys
    && forall k :: k in asg ==>
         asg[k] == if k in seen && eid in asg0[k].assignedEmployeeIds then Strike(asg0[k], eid) else asg0[k]
  }

  /** Visiting one more station of the strike loop. */
  lemma StruckStep(asg0: map<Id, Assignment>, eid: Id, seen: set<Id>, asg: map<Id, Assignment>, x: Id,
                   affected: seq<Id>)
    requires StruckSoFar(asg0, eid, seen, asg) && x in asg0 && x !in seen
    requires Elems(affected) == AffectedBy(asg0, eid) * seen
    ensures asg[x] == asg0[x]
    ensures eid in asg0[x].assignedEmployeeIds ==>
      && StruckSoFar(asg0, eid, seen + {x}, asg[x := Strike(asg0[x], eid)])
      && Elems(affected + [x]) == AffectedBy(asg0, eid) * (seen + {x})
    ensures eid !in asg0[x].assignedEmployeeIds ==>
      && StruckSoFar(asg0, eid, seen + {x}, asg)
      && Elems(affected) == AffectedBy(asg0, eid) * (seen + {x})
  {
    DistinctSnoc(affected, x);
  }

  /** When the strike loop has visited every station, it has struck exactly the affected ones. */
  lemma StruckDone(asg0: map<Id, Assignment>, eid: Id, seen: set<Id>, asg: map<Id, Assignment>, affected: seq<Id>)
    requires StruckSoFar(asg0, eid, seen, asg) && seen == asg0.Keys
    requires Elems(affected) == AffectedBy(asg0, eid) * seen
    ensures asg == StruckAll(asg0, eid)
    ensures Elems(affected) == AffectedBy(asg0, eid)
  {
  }

  /** Everyone the refills of the first `n` stations of `affected` took. */
  function AddedBefore(affected: seq<Id>, added: map<Id, seq<Id>>, n: nat): set<Id>
    requires n <= |affected|
  {
    if n == 0 then {}
    else AddedBefore(affected, added, n - 1) + (if affected[n - 1] in added then Elems(added[affected[n - 1]]) else {})
  }

  /**
   * The first `n` stations of `affected` were rebalanced in turn, starting from the
   * assignments `before` and the available set `pool`: station `affected[j]` got
   * the refill `added[affected[j]]` from what stations `0..j` left, nothing else
   * changed, and the available set lost exactly what the refills took.
   */
  predicate RefilledUpTo(before: map<Id, Assignment>, pool: set<Id>, affected: seq<Id>, n: nat,
                         added: map<Id, seq<Id>>, stations: map<Id, Station>, employees: map<Id, Employee>,
                         w: ScenarioWeights, after: map<Id, Assignment>, avail: set<Id>)
    requires n <= |affected|
  {
    && after.Keys == before.Keys
    && (forall k :: k in before && k !in affected[..n] ==> after[k] == before[k])
    && (forall j :: 0 <= j < n ==> RefilledAt(before, pool, affected, j, added, stations, employees, w, after))
    && avail == pool - AddedBefore(affected, added, n)
  }

  /** Station `affected[j]` got the refill `added[affected[j]]` from what the stations before it left. */
  predicate RefilledAt(before: map<Id, Assignment>, pool: set<Id>, affected: seq<Id>, j: nat,
                       added: map<Id, seq<Id>>, stations: map<Id, Station>, employees: map<Id, Employee>,
                       w: ScenarioWeights, after: map<Id, Assignment>)
    requires j < |affected|
  {
    var k := affected[j];
    && k in before && k in stations && k in added && k in after
    && Refill(added[k], before[k].unfilledSlots, pool - AddedBefore(affected, added, j), employees, stations[k], w)
    && after[k] == Refilled(before[k], added[k])
  }

  /**
   * `handle_absence(eid)` turned `asg0` into `asg` and the available set `pool`
   * (already without `eid`) into `avail`, returning `affected`: every station whose
   * list held `eid`, once each, struck and then rebalanced in that order.
   */
  predicate AbsenceHandled(asg0: map<Id, Assignment>, pool: set<Id>, eid: Id, affected: seq<Id>,
                           added: map<Id, seq<Id>>, stations: map<Id, Station>, employees: map<Id, Employee>,
                           w: ScenarioWeights, asg: map<Id, Assignment>, avail: set<Id>)
  {
    && Distinct(affected) && Elems(affected) == AffectedBy(asg0, eid)
    && RefilledUpTo(StruckAll(asg0, eid), pool, affected, |affected|, added, stations, employees, w, asg, avail)
  }

  /** Changing the refill of a station not among the first `n` leaves what they took unchanged. */
  lemma {:induction false} AddedBeforeUpdate(affected: seq<Id>, added: map<Id, seq<Id>>, n: nat, k: Id, a: seq<Id>)
    requires n <= |affected|
    requires forall m :: 0 <= m < n ==> affected[m] != k
    ensures AddedBefore(affected, added[k := a], n) == AddedBefore(affected, added, n)
  {
    if n > 0 {
      AddedBeforeUpdate(affected, added, n - 1, k, a);
    }
  }

  /** What the first stations took only grows as more stations are counted. */
  lemma {:induction false} AddedBeforeGrows(affected: seq<Id>, added: map<Id, seq<Id>>, m: nat, n: nat)
    requires m <= n <= |affected|
    ensures AddedBefore(affected, added, m) <= AddedBefore(affected, added, n)
    decreases n - m
  {
    if m < n {
      AddedBeforeGrows(affected, added, m, n - 1);
    }
  }

  /** No station is rebalanced before its turn. */
  lemma NotYetVisited(affected: seq<Id>, i: nat)
    requires Distinct(affected) && i < |affected|
    ensures affected[i] !in affected[..i]
    ensures forall m :: 0 <= m < i ==> affected[m] != affected[i]
  {
  }

  /** Rebalancing the next station of `affected` extends the run by one station. */
  lemma RefilledStep(before: map<Id, Assignment>, pool: set<Id>, affected: seq<Id>, i: nat,
                     added: map<Id, seq<Id>>, stations: map<Id, Station>, employees: map<Id, Employee>,
                     w: ScenarioWeights, after: map<Id, Assignment>, avail: set<Id>, a: seq<Id>)
    requires Distinct(affected) && i < |affected| && affected[i] in before && affected[i] in stations
    requires RefilledUpTo(before, pool, affected, i, added, stations, employees, w, after, avail)
    requires Refill(a, before[affected[i]].unfilledSlots, avail, employees, stations[affected[i]], w)
    ensures RefilledUpTo(before, pool, affected, i + 1, added[affected[i] := a], stations, employees, w,
                         after[affected[i] := Refilled(before[affected[i]], a)], avail - Elems(a))
  {
    var k := affected[i];
    var added', after' := added[k := a], after[k := Refilled(before[k], a)];
    RefilledKeptElsewhere(before, affected, i, after, after');
    RefilledAtAll(before, pool, affected, i, added, stations, employees, w, after, avail, a, added', after');
    AddedBeforeUpdate(affected, added, i, k, a);
    assert AddedBefore(affected, added', i + 1) == AddedBefore(affected, added, i) + Elems(a);
    MinusMinus(pool, AddedBefore(affected, added, i), Elems(a));
  }

  /** Stations not yet rebalanced stay as they were. */
  lemma RefilledKeptElsewhere(before: map<Id, Assignment>, affected: seq<Id>, i: nat,
                              after: map<Id, Assignment>, after': map<Id, Assignment>)
    requires Distinct(affected) && i < |affected| && affected[i] in before
    requires after.Keys == before.Keys
    requires forall k :: k in before && k !in affected[..i] ==> after[k] == before[k]
    requires affected[i] in after' && after' == after[affected[i] := after'[affected[i]]]
    ensures after'.Keys == before.Keys
    ensures forall k :: k in before && k !in affected[..i + 1] ==> after'[k] == before[k]
  {
    PrefixSnoc(affected, i);
    forall k | k in before && k !in affected[..i + 1] ensures after'[k] == before[k] {
      assert k !in affected[..i] && k != affected[i];
    }
  }

  /** After the next station is rebalanced, every station up to it has had its refill. */
  lemma RefilledAtAll(before: map<Id, Assignment>, pool: set<Id>, affected: seq<Id>, i: nat,
                      added: map<Id, seq<Id>>, stations: map<Id, Station>, employees: map<Id, Employee>,
                      w: ScenarioWeights, after: map<Id, Assignment>, avail: set<Id>, a: seq<Id>,
                      added': map<Id, seq<Id>>, after': map<Id, Assignment>)
    requires Distinct(affected) && i < |affected| && affected[i] in before && affected[i] in stations
    requires forall j :: 0 <= j < i ==> RefilledAt(before, pool, affected, j, added, stations, employees, w, after)
    requires avail == pool - AddedBefore(affected, added, i)
    requires Refill(a, before[affected[i]].unfilledSlots, avail, employees, stations[affected[i]], w)
    requires added' == added[affected[i] := a] && after' == after[affected[i] := Refilled(before[affected[i]], a)]
    ensures forall j :: 0 <= j < i + 1 ==> RefilledAt(before, pool, affected, j, added', stations, employees, w, after')
  {
    var k := affected[i];
    NotYetVisited(affected, i);
    forall j | 0 <= j < i + 1 ensures RefilledAt(before, pool, affected, j, added', stations, employees, w, after') {
      if j < i {
        RefilledAtKept(before, pool, affected, j, added, stations, employees, w, after, k, a, Refilled(before[k], a));
      } else {
        RefilledAtNew(before, pool, affected, i, added, stations, employees, w, after, avail, a);
      }
    }
  }

  /** A station already rebalanced keeps its refill when a later station is rebalanced. */
  lemma RefilledAtKept(before: map<Id, Assignment>, pool: set<Id>, affected: seq<Id>, j: nat,
                       added: map<Id, seq<Id>>, stations: map<Id, Station>, employees: map<Id, Employee>,
                       w: ScenarioWeights, after: map<Id, Assignment>, k: Id, a: seq<Id>, b: Assignment)
    requires j < |affected| && affected[j] != k && forall m :: 0 <= m < j ==> affected[m] != k
    requires RefilledAt(before, pool, affected, j, added, stations, employees, w, after)
    ensures RefilledAt(before, pool, affected, j, added[k := a], stations, employees, w, after[k := b])
  {
    AddedBeforeUpdate(affected, added, j, k, a);
  }

  /** The station rebalanced next draws on what the stations before it left. */
  lemma RefilledAtNew(before: map<Id, Assignment>, pool: set<Id>, affected: seq<Id>, i: nat,
                      added: map<Id, seq<Id>>, stations: map<Id, Station>, employees: map<Id, Employee>,
                      w: ScenarioWeights, after: map<Id, Assignment>, avail: set<Id>, a: seq<Id>)
    requires i < |affected| && affected[i] in before && affected[i] in stations
    requires forall m :: 0 <= m < i ==> affected[m] != affected[i]
    requires avail == pool - AddedBefore(affected, added, i)
    requires Refill(a, before[affected[i]].unfilledSlots, avail, employees, stations[affected[i]], w)
    ensures RefilledAt(before, pool, affected, i, added[affected[i] := a], stations, employees, w,
                       after[affected[i] := Refilled(before[affected[i]], a)])
  {
    AddedBeforeUpdate(affected, added, i, affected[i], a);
  }

  lemma MinusMinus<T>(p: set<T>, x: set<T>, y: set<T>)
    ensures (p - x) - y == p - (x + y)
  {
  }

  /** Before any rebalancing, the run is empty. */
  lemma RefilledStart(before: map<Id, Assignment>, pool: set<Id>, affected: seq<Id>,
                      stations: map<Id, Station>, employees: map<Id, Employee>, w: ScenarioWeights)
    ensures RefilledUpTo(before, pool, affected, 0, map[], stations, employees, w, before, pool)
  {
    assert affected[..0] == [];
  }

  /** Striking and refilling keep every assignment under its own station's id. */
  lemma RefilledKeyed(asg0: map<Id, Assignment>, pool: set<Id>, eid: Id, affected: seq<Id>,
                      added: map<Id, seq<Id>>, stations: map<Id, Station>, employees: map<Id, Employee>,
                      w: ScenarioWeights, asg: map<Id, Assignment>, avail: set<Id>)
    requires RefilledUpTo(StruckAll(asg0, eid), pool, affected, |affected|, added, stations, employees, w, asg, avail)
    requires forall k :: k in asg0 ==> asg0[k].stationId == k
    ensures asg.Keys == asg0.Keys && avail <= pool
    ensures forall k :: k in asg ==> asg[k].stationId == k
  {
    var before := StruckAll(asg0, eid);
    forall k | k in asg ensures asg[k].stationId == k {
      if k in affected[..|affected|] {
        var j :| 0 <= j < |affected| && affected[j] == k;
        assert RefilledAt(before, pool, affected, j, added, stations, employees, w, asg);
      }
    }
  }

  /** After an absence every station that still has open slots has no qualified candidate left available. */
  lemma AbsenceExhausts(asg0: map<Id, Assignment>, pool: set<Id>, eid: Id, affected: seq<Id>,
                        added: map<Id, seq<Id>>, stations: map<Id, Station>, employees: map<Id, Employee>,
                        w: ScenarioWeights, asg: map<Id, Assignment>, avail: set<Id>, k: Id)
    requires AbsenceHandled(asg0, pool, eid, affected, added, stations, employees, w, asg, avail)
    requires k in AffectedBy(asg0, eid) && asg[k].unfilledSlots > 0
    ensures k in stations && QualifiedAmong(avail, employees, stations[k]) == {}
  {
    assert k in Elems(affected);
    var j :| 0 <= j < |affected| && affected[j] == k;
    var before := StruckAll(asg0, eid);
    assert RefilledAt(before, pool, affected, j, added, stations, employees, w, asg);
    var p := pool - AddedBefore(affected, added, j);
    Greedy.RefillExhausts(added[k], before[k].unfilledSlots, p, employees, stations[k], w);
    AddedBeforeGrows(affected, added, j + 1, |affected|);
    QualifiedAmongMonotone(avail, p - Elems(added[k]), employees, stations[k]);
  }

  /**
   * After an absence nobody's list holds `eid` any more, provided no list held it
   * twice (`list.remove` drops only the first occurrence) and `eid` is not
   * available to the refills.
   */
  lemma AbsenceLeavesNoTrace(asg0: map<Id, Assignment>, pool: set<Id>, eid: Id, affected: seq<Id>,
                             added: map<Id, seq<Id>>, stations: map<Id, Station>, employees: map<Id, Employee>,
                             w: ScenarioWeights, asg: map<Id, Assignment>, avail: set<Id>, k: Id)
    requires AbsenceHandled(asg0, pool, eid, affected, added, stations, employees, w, asg, avail)
    requires forall k :: k in asg0 ==> Distinct(asg0[k].assignedEmployeeIds)
    requires eid !in pool
    requires k in asg
    ensures eid !in asg[k].assignedEmployeeIds
  {
    if k in AffectedBy(asg0, eid) {
      assert k in Elems(affected);
      var j :| 0 <= j < |affected| && affected[j] == k;
      assert RefilledAt(StruckAll(asg0, eid), pool, affected, j, added, stations, employees, w, asg);
      RemoveFirstDistinct(asg0[k].assignedEmployeeIds, eid);
      assert eid !in Elems(RemoveFirst(asg0[k].assignedEmployeeIds, eid));
      assert eid !in Elems(added[k]);
      assert asg[k].assignedEmployeeIds == RemoveFirst(asg0[k].assignedEmployeeIds, eid) + added[k];
    } else {
      assert k !in Elems(affected);
      assert k !in affected[..|affected|];
    }
  }
}
