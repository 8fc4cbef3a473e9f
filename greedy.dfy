/**
 * What the allocator's choices are, stated on values: the qualification gate, the
 * candidate ranking key, "the top picks of a ranked list", and the outcome of a
 * greedy pass that visits stations in a given order drawing on a shrinking pool.
 * The imperative methods of `Engine` are proved to produce these outcomes; the
 * lemmas here derive what the outcomes guarantee.
 */
module Greedy {
  import opened Wrappers
  import opened Models
  import opened Lists
  import opened Ranking
  import opened Rotation
  import opened Scoring

  /** The qualification gate: both the certification and the competency minimum are met. */
  predicate Qualifies(e: Employee, st: Station)
  {
    e.certificationLevel >= st.requiredCertification && GetCompetency(e, st.id) >= st.requiredSkillLevel
  }

  /** The members of `pool` that are known employees qualified for `st`. */
  function QualifiedAmong(pool: set<Id>, employees: map<Id, Employee>, st: Station): set<Id>
  {
    set e | e in pool && e in employees && Qualifies(employees[e], st)
  }

  lemma QualifiedAmongMinus(pool: set<Id>, taken: set<Id>, employees: map<Id, Employee>, st: Station)
    ensures QualifiedAmong(pool - taken, employees, st) == QualifiedAmong(pool, employees, st) - taken
  {
  }

  lemma QualifiedAmongAdd(pool: set<Id>, x: Id, employees: map<Id, Employee>, st: Station)
    requires x in employees
    ensures Qualifies(employees[x], st) ==> QualifiedAmong(pool + {x}, employees, st) == QualifiedAmong(pool, employees, st) + {x}
    ensures !Qualifies(employees[x], st) ==> QualifiedAmong(pool + {x}, employees, st) == QualifiedAmong(pool, employees, st)
  {
  }

  lemma QualifiedAmongMonotone(small: set<Id>, pool: set<Id>, employees: map<Id, Employee>, st: Station)
    requires small <= pool
    ensures QualifiedAmong(small, employees, st) <= QualifiedAmong(pool, employees, st)
  {
  }

  /**
   * The key candidates for `st` are ranked by: the scenario-weighted priority when
   * rotation statistics exist, otherwise the pair (certification, competency).
   */
  function CandidateKey(employees: map<Id, Employee>, st: Station, stats: Option<Stats>,
                        w: ScenarioWeights, e: Id): Rank
  {
    if e !in employees then Rank(0.0, 0.0)
    else
      var emp := employees[e];
      var competency := GetCompetency(emp, st.id);
      match stats
      case Some(m) =>
        var pair := if (e, st.id) in m then Some(m[(e, st.id)]) else None;
        Rank(Priority(competency, emp.certificationLevel, pair, w), 0.0)
      case None => Rank(emp.certificationLevel as real, competency as real)
  }

  function KeyFn(employees: map<Id, Employee>, st: Station, stats: Option<Stats>, w: ScenarioWeights): Id -> Rank
  {
    e => CandidateKey(employees, st, stats, w, e)
  }

  /** Without statistics the ranking is certification first, then competency, both descending. */
  lemma FallbackKeyOrder(employees: map<Id, Employee>, st: Station, w: ScenarioWeights, a: Id, b: Id)
    requires a in employees && b in employees
    ensures AtLeast(CandidateKey(employees, st, None, w, a), CandidateKey(employees, st, None, w, b)) <==>
      (employees[a].certificationLevel > employees[b].certificationLevel ||
       (employees[a].certificationLevel == employees[b].certificationLevel &&
        GetCompetency(employees[a], st.id) >= GetCompetency(employees[b], st.id)))
  {
  }

  /** `r` lists every member of `pool` once, best key first. */
  predicate Ranked(r: seq<Id>, pool: set<Id>, key: Id -> Rank)
  {
    Distinct(r) && Elems(r) == pool && SortedByKey(r, key)
  }

  /** Sorting a duplicate-free list ranks its elements. */
  lemma SortRanks(s: seq<Id>, key: Id -> Rank)
    requires Distinct(s)
    ensures Ranked(SortByKey(s, key), Elems(s), key)
  {
    var r := SortByKey(s, key);
    SortSorted(s, key);
    DistinctPermutation(s, r);
    assert forall x :: x in r <==> x in multiset(r);
    assert forall x :: x in s <==> x in multiset(s);
  }

  /**
   * `list` is a best-first choice of as many candidates as the headcount asks and
   * the candidates allow: nobody left out outranks anybody chosen.
   */
  predicate TopPick(list: seq<Id>, cands: set<Id>, headcount: int, key: Id -> Rank)
  {
    && Distinct(list)
    && Elems(list) <= cands
    && |list| == MinInt(MaxInt(headcount, 0), |cands|)
    && SortedByKey(list, key)
    && forall x, c :: x in list && c in cands && c !in list ==> AtLeast(key(x), key(c))
  }

  /** Taking the first `min(headcount, |ranked|)` of a ranked list is a top pick. */
  lemma PrefixIsTopPick(q: seq<Id>, cands: set<Id>, headcount: int, key: Id -> Rank)
    requires Ranked(q, cands, key)
    ensures TopPick(q[..MinInt(MaxInt(headcount, 0), |q|)], cands, headcount, key)
  {
    DistinctCard(q);
    var n := MinInt(MaxInt(headcount, 0), |q|);
    var l := q[..n];
    forall x, c | x in l && c in cands && c !in l ensures AtLeast(key(x), key(c)) {
      var i :| 0 <= i < n && l[i] == x;
      var k :| 0 <= k < |q| && q[k] == c;
      assert k >= n;
      assert q[i] == x;
    }
  }

  /** The result of `Assignment` bookkeeping for a station whose list is `list`. */
  predicate Bookkept(st: Station, a: Assignment)
  {
    a.stationId == st.id
    && a.unfilledSlots == st.requiredHeadcount - |a.assignedEmployeeIds|
    && a.isFullyStaffed == (a.unfilledSlots == 0)
  }

  /** Station `st` was staffed from `pool` by a top pick of its qualified members. */
  predicate StationFilled(st: Station, pool: set<Id>, employees: map<Id, Employee>, stats: Option<Stats>,
                          w: ScenarioWeights, a: Assignment)
  {
    Bookkept(st, a)
    && TopPick(a.assignedEmployeeIds, QualifiedAmong(pool, employees, st), st.requiredHeadcount, KeyFn(employees, st, stats, w))
  }

  function IdsOf(order: seq<Station>): set<Id>
  {
    set st | st in order :: st.id
  }

  predicate DistinctIds(order: seq<Station>)
  {
    forall i, j :: 0 <= i < j < |order| ==> order[i].id != order[j].id
  }

  /** Everyone assigned to the stations of `order`. */
  function TakenBy(order: seq<Station>, asg: map<Id, Assignment>): set<Id>
  {
    if order == [] then {}
    else
      var st := order[|order| - 1];
      TakenBy(order[..|order| - 1], asg) + (if st.id in asg then Elems(asg[st.id].assignedEmployeeIds) else {})
  }

  /** Everyone on some station's list (the union of the assigned lists). */
  function AssignedIds(asg: map<Id, Assignment>): set<Id>
  {
    set k, x | k in asg && x in asg[k].assignedEmployeeIds :: x
  }

  /**
   * A greedy pass over `order`: each station is staffed by a top pick from those of
   * `present` that no earlier station took.
   */
  predicate GreedySchedule(order: seq<Station>, present: set<Id>, employees: map<Id, Employee>,
                           stats: Option<Stats>, w: ScenarioWeights, asg: map<Id, Assignment>)
    decreases |order|
  {
    if order == [] then true
    else
      var n := |order| - 1;
      && GreedySchedule(order[..n], present, employees, stats, w, asg)
      && order[n].id in asg
      && StationFilled(order[n], present - TakenBy(order[..n], asg), employees, stats, w, asg[order[n].id])
  }

  lemma {:induction false} TakenByUpdate(order: seq<Station>, asg: map<Id, Assignment>, k: Id, a: Assignment)
    requires k !in IdsOf(order)
    ensures TakenBy(order, asg[k := a]) == TakenBy(order, asg)
  {
    if order != [] {
      var init := order[..|order| - 1];
      assert IdsOf(init) <= IdsOf(order);
      TakenByUpdate(init, asg, k, a);
      assert order[|order| - 1] in order;
    }
  }

  /** Before any station is visited the pass is empty: nobody is taken and no station is filed. */
  lemma GreedyStart(order: seq<Station>, present: set<Id>, employees: map<Id, Employee>, stats: Option<Stats>,
                    w: ScenarioWeights)
    ensures GreedySchedule(order[..0], present, employees, stats, w, map[])
    ensures IdsOf(order[..0]) == {}
    ensures present - TakenBy(order[..0], map[]) == present
  {
    assert order[..0] == [];
  }

  /** Filing an assignment under an id that `order` does not use leaves a greedy pass over `order` intact. */
  lemma {:induction false} GreedyUpdate(order: seq<Station>, present: set<Id>, employees: map<Id, Employee>,
                                        stats: Option<Stats>, w: ScenarioWeights, asg: map<Id, Assignment>,
                                        k: Id, a: Assignment)
    requires GreedySchedule(order, present, employees, stats, w, asg)
    requires k !in IdsOf(order)
    ensures GreedySchedule(order, present, employees, stats, w, asg[k := a])
    decreases |order|
  {
    if order != [] {
      var n := |order| - 1;
      assert IdsOf(order[..n]) <= IdsOf(order) by {
        forall s | s in order[..n] ensures s in order { }
      }
      assert order[n] in order;
      GreedyUpdate(order[..n], present, employees, stats, w, asg, k, a);
      TakenByUpdate(order[..n], asg, k, a);
    }
  }

  /** One more station staffed from what is left extends a greedy pass. */
  lemma GreedyExtend(order: seq<Station>, present: set<Id>, employees: map<Id, Employee>,
                     stats: Option<Stats>, w: ScenarioWeights, asg: map<Id, Assignment>,
                     st: Station, a: Assignment)
    requires GreedySchedule(order, present, employees, stats, w, asg)
    requires st.id !in IdsOf(order)
    requires StationFilled(st, present - TakenBy(order, asg), employees, stats, w, a)
    ensures GreedySchedule(order + [st], present, employees, stats, w, asg[st.id := a])
    ensures TakenBy(order + [st], asg[st.id := a]) == TakenBy(order, asg) + Elems(a.assignedEmployeeIds)
  {
    assert (order + [st])[..|order|] == order;
    GreedyUpdate(order, present, employees, stats, w, asg, st.id, a);
    TakenByUpdate(order, asg, st.id, a);
  }

  /** In a list of stations with distinct ids, no station's id occurs before it. */
  lemma FreshId(order: seq<Station>, i: nat)
    requires i < |order| && DistinctIds(order)
    ensures order[i].id !in IdsOf(order[..i])
  {
    forall s | s in order[..i] ensures s.id != order[i].id {
      var k :| 0 <= k < i && order[..i][k] == s;
    }
  }

  /** The ids of a prefix one longer gain the next station's id. */
  lemma IdsOfSnoc(order: seq<Station>, i: nat)
    requires i < |order|
    ensures IdsOf(order[..i + 1]) == IdsOf(order[..i]) + {order[i].id}
  {
    PrefixSnoc(order, i);
    assert IdsOf(order[..i] + [order[i]]) == IdsOf(order[..i]) + {order[i].id};
  }

  /** Staffing station `i` from what stations `0..i` left extends the greedy pass by one station. */
  lemma GreedyStep(order: seq<Station>, i: nat, present: set<Id>, employees: map<Id, Employee>,
                   stats: Option<Stats>, w: ScenarioWeights, asg: map<Id, Assignment>, a: Assignment)
    requires i < |order| && DistinctIds(order)
    requires GreedySchedule(order[..i], present, employees, stats, w, asg)
    requires StationFilled(order[i], present - TakenBy(order[..i], asg), employees, stats, w, a)
    ensures GreedySchedule(order[..i + 1], present, employees, stats, w, asg[order[i].id := a])
    ensures present - TakenBy(order[..i + 1], asg[order[i].id := a]) ==
      (present - TakenBy(order[..i], asg)) - Elems(a.assignedEmployeeIds)
    ensures IdsOf(order[..i + 1]) == IdsOf(order[..i]) + {order[i].id}
  {
    FreshId(order, i);
    PrefixSnoc(order, i);
    IdsOfSnoc(order, i);
    GreedyExtend(order[..i], present, employees, stats, w, asg, order[i], a);
  }

  /** The stations earlier in the order took no fewer people. */
  lemma {:induction false} TakenByPrefix(order: seq<Station>, asg: map<Id, Assignment>, i: nat, j: nat)
    requires i <= j <= |order|
    ensures TakenBy(order[..i], asg) <= TakenBy(order[..j], asg)
    decreases j - i
  {
    if i < j {
      TakenByPrefix(order, asg, i, j - 1);
      assert order[..j][..j - 1] == order[..j - 1];
    }
  }

  /** Station `i`'s list is among those taken by the first `i + 1` stations. */
  lemma TakenByHolds(order: seq<Station>, asg: map<Id, Assignment>, i: nat)
    requires i < |order| && order[i].id in asg
    ensures Elems(asg[order[i].id].assignedEmployeeIds) <= TakenBy(order[..i + 1], asg)
  {
    assert order[..i + 1][..i] == order[..i];
  }

  /** Over an order that names exactly the assigned stations, the taken set is the union of all lists. */
  lemma {:induction false} TakenByAll(order: seq<Station>, asg: map<Id, Assignment>)
    ensures TakenBy(order, asg) == set k, x | k in asg && k in IdsOf(order) && x in asg[k].assignedEmployeeIds :: x
  {
    if order != [] {
      var init := order[..|order| - 1];
      var st := order[|order| - 1];
      TakenByAll(init, asg);
      assert order == init + [st];
      assert IdsOf(order) == IdsOf(init) + {st.id};
    }
  }

  /** Over an order that names exactly the assigned stations, the taken set is everyone assigned. */
  lemma TakenByCovers(order: seq<Station>, asg: map<Id, Assignment>)
    requires asg.Keys == IdsOf(order)
    ensures TakenBy(order, asg) == AssignedIds(asg)
  {
    TakenByAll(order, asg);
  }

  // ---------------------------------------------------------------------------
  // What a greedy pass guarantees.

  /** Every station's assignment of a greedy pass is filed under the station's id. */
  lemma GreedyKeyed(order: seq<Station>, present: set<Id>, employees: map<Id, Employee>,
                    stats: Option<Stats>, w: ScenarioWeights, asg: map<Id, Assignment>)
    requires GreedySchedule(order, present, employees, stats, w, asg)
    requires asg.Keys == IdsOf(order)
    ensures forall k :: k in asg ==> asg[k].stationId == k
  {
    forall k | k in asg ensures asg[k].stationId == k {
      var st :| st in order && st.id == k;
      var i :| 0 <= i < |order| && order[i] == st;
      GreedyAt(order, present, employees, stats, w, asg, i);
    }
  }

  /** A greedy pass over the whole of `order` that filed an assignment for exactly its stations. */
  lemma GreedyComplete(order: seq<Station>, present: set<Id>, employees: map<Id, Employee>,
                       stats: Option<Stats>, w: ScenarioWeights, asg: map<Id, Assignment>, avail: set<Id>)
    requires GreedySchedule(order[..|order|], present, employees, stats, w, asg)
    requires asg.Keys == IdsOf(order[..|order|])
    requires avail == present - TakenBy(order[..|order|], asg)
    ensures GreedySchedule(order, present, employees, stats, w, asg)
    ensures asg.Keys == IdsOf(order)
    ensures forall k :: k in asg ==> asg[k].stationId == k
    ensures avail == present - AssignedIds(asg)
  {
    FullPrefix(order);
    TakenByCovers(order, asg);
    GreedyKeyed(order, present, employees, stats, w, asg);
  }

  /** Station `i` of a greedy pass, one at a time. */
  lemma {:induction false} GreedyAt(order: seq<Station>, present: set<Id>, employees: map<Id, Employee>,
                 stats: Option<Stats>, w: ScenarioWeights, asg: map<Id, Assignment>, i: nat)
    requires GreedySchedule(order, present, employees, stats, w, asg)
    requires i < |order|
    ensures order[i].id in asg
    ensures StationFilled(order[i], present - TakenBy(order[..i], asg), employees, stats, w, asg[order[i].id])
    decreases |order|
  {
    var n := |order| - 1;
    if i < n {
      PrefixOfPrefix(order, n, i);
      GreedyAt(order[..n], present, employees, stats, w, asg, i);
    }
  }

  /**
   * A station of a greedy pass is fully staffed exactly when its pool held at least
   * as many qualified candidates as its headcount; a negative headcount is never
   * fully staffed (its open-slot count is negative, not zero).
   */
  lemma GreedyStaffing(order: seq<Station>, present: set<Id>, employees: map<Id, Employee>,
                       stats: Option<Stats>, w: ScenarioWeights, asg: map<Id, Assignment>, i: nat)
    requires GreedySchedule(order, present, employees, stats, w, asg)
    requires i < |order|
    ensures order[i].id in asg
    ensures var cands := QualifiedAmong(present - TakenBy(order[..i], asg), employees, order[i]);
      && (order[i].requiredHeadcount >= 0 ==> (asg[order[i].id].isFullyStaffed <==> |cands| >= order[i].requiredHeadcount))
      && (order[i].requiredHeadcount < 0 ==> !asg[order[i].id].isFullyStaffed)
  {
    GreedyAt(order, present, employees, stats, w, asg, i);
  }

  /** The stations whose assignment is not fully staffed. */
  function UnfilledIn(asg: map<Id, Assignment>): set<Id>
  {
    set k | k in asg && !asg[k].isFullyStaffed
  }

  /** A station filled from a pool holds only qualified members of it. */
  lemma FilledFromPool(st: Station, pool: set<Id>, employees: map<Id, Employee>, stats: Option<Stats>,
                       w: ScenarioWeights, a: Assignment, x: Id)
    requires StationFilled(st, pool, employees, stats, w, a)
    requires x in a.assignedEmployeeIds
    ensures x in pool && x in employees && Qualifies(employees[x], st)
  {
    assert x in Elems(a.assignedEmployeeIds);
  }

  /** No employee is on two stations' lists. */
  lemma GreedyDisjoint(order: seq<Station>, present: set<Id>, employees: map<Id, Employee>,
                       stats: Option<Stats>, w: ScenarioWeights, asg: map<Id, Assignment>, i: nat, j: nat, x: Id)
    requires GreedySchedule(order, present, employees, stats, w, asg)
    requires i < j < |order|
    requires order[i].id in asg && x in asg[order[i].id].assignedEmployeeIds
    ensures order[j].id in asg && x !in asg[order[j].id].assignedEmployeeIds
  {
    TakenByHolds(order, asg, i);
    TakenByPrefix(order, asg, i + 1, j);
    assert x in Elems(asg[order[i].id].assignedEmployeeIds);
    assert x in TakenBy(order[..j], asg);
    GreedyAt(order, present, employees, stats, w, asg, j);
    if x in asg[order[j].id].assignedEmployeeIds {
      FilledFromPool(order[j], present - TakenBy(order[..j], asg), employees, stats, w, asg[order[j].id], x);
    }
  }

  /** Soundness: everyone assigned is present, known and qualified for the station. */
  lemma GreedySound(order: seq<Station>, present: set<Id>, employees: map<Id, Employee>,
                    stats: Option<Stats>, w: ScenarioWeights, asg: map<Id, Assignment>, i: nat, x: Id)
    requires GreedySchedule(order, present, employees, stats, w, asg)
    requires i < |order|
    requires order[i].id in asg && x in asg[order[i].id].assignedEmployeeIds
    ensures x in present && x in employees && Qualifies(employees[x], order[i])
  {
    GreedyAt(order, present, employees, stats, w, asg, i);
    FilledFromPool(order[i], present - TakenBy(order[..i], asg), employees, stats, w, asg[order[i].id], x);
  }

  /** A top pick that leaves out a candidate is as long as the headcount, and everyone in it outranks that candidate. */
  lemma TopPickLeftOut(list: seq<Id>, cands: set<Id>, headcount: int, key: Id -> Rank, x: Id)
    requires TopPick(list, cands, headcount, key)
    requires x in cands && x !in list
    ensures |list| == MaxInt(headcount, 0)
    ensures forall y :: y in list ==> AtLeast(key(y), key(x))
  {
    if |list| != MaxInt(headcount, 0) {
      DistinctCovers(list, cands);
    }
  }

  /**
   * Scarce talent goes to the stations visited first: if `x`, qualified for the
   * earlier station `i`, ended up at the later station `j`, then station `i` is
   * fully staffed by people who rank at least as high as `x` there.
   */
  lemma GreedyEarlierStationsClaimFirst(order: seq<Station>, present: set<Id>, employees: map<Id, Employee>,
                                        stats: Option<Stats>, w: ScenarioWeights, asg: map<Id, Assignment>,
                                        i: nat, j: nat, x: Id)
    requires GreedySchedule(order, present, employees, stats, w, asg)
    requires i < j < |order|
    requires order[j].id in asg && x in asg[order[j].id].assignedEmployeeIds
    requires x in employees && Qualifies(employees[x], order[i])
    ensures order[i].id in asg
    ensures |asg[order[i].id].assignedEmployeeIds| == MaxInt(order[i].requiredHeadcount, 0)
    ensures forall y :: y in asg[order[i].id].assignedEmployeeIds ==>
      AtLeast(CandidateKey(employees, order[i], stats, w, y), CandidateKey(employees, order[i], stats, w, x))
  {
    GreedyAt(order, present, employees, stats, w, asg, i);
    GreedyAt(order, present, employees, stats, w, asg, j);
    FilledFromPool(order[j], present - TakenBy(order[..j], asg), employees, stats, w, asg[order[j].id], x);
    TakenByPrefix(order, asg, i, j);
    TakenByHolds(order, asg, i);
    TakenByPrefix(order, asg, i + 1, j);
    var li := asg[order[i].id].assignedEmployeeIds;
    var candsI := QualifiedAmong(present - TakenBy(order[..i], asg), employees, order[i]);
    assert x in candsI;
    assert x !in li;
    TopPickLeftOut(li, candsI, order[i].requiredHeadcount, KeyFn(employees, order[i], stats, w), x);
  }

  // ---------------------------------------------------------------------------
  // Refilling one station (`rebalance_schedule`).

  /**
   * `added` is what a rebalance appended to a station that had `open` unfilled slots
   * while `pool` was available: one candidate per step, each the best (by the
   * fallback ranking) of the qualified candidates not yet taken, until the slots
   * or the candidates run out.
   */
  predicate Refill(added: seq<Id>, open: int, pool: set<Id>, employees: map<Id, Employee>,
                   st: Station, w: ScenarioWeights)
  {
    && RefillSoFar(added, pool, employees, st, w)
    && |added| == (if open > 0 then MinInt(open, |QualifiedAmong(pool, employees, st)|) else 0)
  }

  /** The steps of a refill so far: each pick the best of the qualified candidates not yet taken. */
  predicate RefillSoFar(added: seq<Id>, pool: set<Id>, employees: map<Id, Employee>, st: Station, w: ScenarioWeights)
  {
    var cands := QualifiedAmong(pool, employees, st);
    var key := KeyFn(employees, st, None, w);
    && Distinct(added)
    && Elems(added) <= cands
    && forall i, c :: 0 <= i < |added| && c in cands && c !in added[..i] ==> AtLeast(key(added[i]), key(c))
  }

  /** Taking the head of the ranked remaining candidates is one more refill step. */
  lemma RefillStep(added: seq<Id>, pool: set<Id>, employees: map<Id, Employee>, st: Station, w: ScenarioWeights,
                   q: seq<Id>)
    requires RefillSoFar(added, pool, employees, st, w)
    requires Ranked(q, QualifiedAmong(pool - Elems(added), employees, st), KeyFn(employees, st, None, w)) && q != []
    ensures RefillSoFar(added + [q[0]], pool, employees, st, w)
    ensures Elems(added + [q[0]]) == Elems(added) + {q[0]}
  {
    var cands := QualifiedAmong(pool, employees, st);
    var key := KeyFn(employees, st, None, w);
    var x, r := q[0], added + [q[0]];
    QualifiedAmongMinus(pool, Elems(added), employees, st);
    assert x in Elems(q);
    DistinctSnoc(added, x);
    forall i, c | 0 <= i < |r| && c in cands && c !in r[..i] ensures AtLeast(key(r[i]), key(c)) {
      if i < |added| {
        assert r[..i] == added[..i];
      } else {
        assert r[..i] == added;
        assert c in Elems(q);
        var j :| 0 <= j < |q| && q[j] == c;
        if j > 0 {
          assert AtLeast(key(q[0]), key(q[j]));
        }
      }
    }
  }

  /** A refill stops when the open slots are filled, or leaves them open only when no candidate is left. */
  lemma RefillStops(added: seq<Id>, open: int, pool: set<Id>, employees: map<Id, Employee>, st: Station,
                    w: ScenarioWeights)
    requires RefillSoFar(added, pool, employees, st, w)
    requires open <= 0 ==> added == []
    requires open > 0 ==> |added| == open || (|added| < open && QualifiedAmong(pool - Elems(added), employees, st) == {})
    ensures Refill(added, open, pool, employees, st, w)
  {
    var cands := QualifiedAmong(pool, employees, st);
    DistinctCard(added);
    SubsetCard(Elems(added), cands);
    if open > 0 && |added| < open {
      QualifiedAmongMinus(pool, Elems(added), employees, st);
      assert cands <= Elems(added);
      SubsetCard(cands, Elems(added));
    }
  }

  /** `assignments.get(station_id)`, or a fresh `Assignment(station_id)` (no list, no open slots) when there is none. */
  function AssignmentOf(asg: map<Id, Assignment>, stationId: Id): Assignment
  {
    if stationId in asg then asg[stationId] else EmptyAssignment(stationId)
  }

  /** A station's assignment after `rebalance_schedule` appended `added` to it. */
  function Refilled(a: Assignment, added: seq<Id>): Assignment
  {
    var open := a.unfilledSlots - |added|;
    a.(assignedEmployeeIds := a.assignedEmployeeIds + added, unfilledSlots := open, isFullyStaffed := open == 0)
  }

  /**
   * Rebalancing a station that has no assignment yet creates an empty one with no
   * open slots: nobody is added and the station counts as fully staffed.
   */
  lemma UnscheduledRebalance(asg: map<Id, Assignment>, stationId: Id, added: seq<Id>, pool: set<Id>,
                             employees: map<Id, Employee>, st: Station, w: ScenarioWeights)
    requires stationId !in asg
    requires Refill(added, AssignmentOf(asg, stationId).unfilledSlots, pool, employees, st, w)
    ensures added == []
    ensures Refilled(AssignmentOf(asg, stationId), added) == Assignment(stationId, [], true, 0)
  {
  }

  /** Picking the best remaining candidate one at a time is a top pick of the whole candidate set. */
  lemma RefillIsTopPick(added: seq<Id>, open: int, pool: set<Id>, employees: map<Id, Employee>,
                        st: Station, w: ScenarioWeights)
    requires Refill(added, open, pool, employees, st, w)
    ensures TopPick(added, QualifiedAmong(pool, employees, st), open, KeyFn(employees, st, None, w))
  {
    var cands := QualifiedAmong(pool, employees, st);
    var key := KeyFn(employees, st, None, w);
    forall i, j | 0 <= i < j < |added| ensures AtLeast(key(added[i]), key(added[j])) {
      assert added[j] in Elems(added);
      assert added[j] !in added[..i];
    }
    forall x, c | x in added && c in cands && c !in added ensures AtLeast(key(x), key(c)) {
      var i :| 0 <= i < |added| && added[i] == x;
      assert c !in added[..i];
    }
  }

  /** A refill that leaves slots open has used up every qualified candidate of its pool. */
  lemma RefillExhausts(added: seq<Id>, open: int, pool: set<Id>, employees: map<Id, Employee>,
                       st: Station, w: ScenarioWeights)
    requires Refill(added, open, pool, employees, st, w)
    requires open - |added| > 0
    ensures QualifiedAmong(pool - Elems(added), employees, st) == {}
  {
    var cands := QualifiedAmong(pool, employees, st);
    DistinctCovers(added, cands);
    QualifiedAmongMinus(pool, Elems(added), employees, st);
  }

  /** A refill closes every open slot exactly when there are enough qualified candidates. */
  lemma RefillCloses(added: seq<Id>, open: int, pool: set<Id>, employees: map<Id, Employee>,
                     st: Station, w: ScenarioWeights)
    requires Refill(added, open, pool, employees, st, w)
    ensures open >= 0 ==> (open - |added| == 0 <==> |QualifiedAmong(pool, employees, st)| >= open)
    ensures open < 0 ==> added == []
  {
  }
}
