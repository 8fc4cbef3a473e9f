# Cross-Training Matrix Scheduler, modelled in Dafny

This project models the decision logic of the Cross-Training Matrix Scheduler and proves properties of that model. The scheduler is a tool that staffs manufacturing stations with employees according to their per-station competency and their certification. The model covers three parts of the repository:

- **The assignment engine `MatrixScheduler`** (`scheduler/scheduler.py`), modelled as the class `Engine.Scheduler`. The class has the engine's fields: stations, employees, assignments, the available and absent sets, the assignment log and the scenario weights. Its operations are:
  - the qualification gate;
  - candidate ranking: a scenario-weighted priority when there is history, and a (certification, competency) fallback when there is none;
  - the greedy allocator `generate_schedule`, which visits stations by descending required skill level;
  - absence handling and rebalancing;
  - the rotation-statistics fold over the log;
  - unfilled-station and summary queries;
  - the `to_json`/`from_json` snapshot round trip.
- **The value types** of `scheduler/models.py` (module `Models`), with their `to_dict`/`from_dict` conversions and the legacy employee format.
- **The state rules of `app.py`** that change the engine's state from outside the class:
  - mark absent/present, add employee, remove employee, remove station (module `Roster`);
  - the unassigned set, the manual-override options, conflict detection and apply, and the training recommendations (module `Overrides`);
  - the "Finalize Day" log merge, which upserts logs by (date, employee, station) (module `Finalize`).

Modules:

- `Wrappers`: `Option` and `Result`.
- `Models`: the records and their dictionary forms.
- `Lists`: duplicate-free lists, `list.remove`.
- `Ranking`: a stable insertion sort by a descending rank.
- `Rotation`: `_build_rotation_stats`.
- `Scoring`: `SCENARIOS` and the priority formula.
- `Greedy`: predicates that describe what a greedy pass and a refill produce.
- `Absence`: what `handle_absence` does to the assignments.
- `Snapshot`: the state as a value, its well-formedness, and the snapshot format.
- `Engine`: `MatrixScheduler`.
- `Dicts`: loops that rewrite every value of a dict.
- `Roster`, `Overrides`, `Finalize`: the `app.py` rules, as methods on a `Scheduler`.

Each state-changing method is specified in a common shape:
- its `ensures` ties the new state `Contents()` to a function of the old state (for example `MarkedAbsent`, `EmployeeRemoved`, `OverrideApplied` or `MergeAll`);
- lemmas then prove what the source promises about that function: the invariant `Valid()` and its stronger form `Roster.Accounted`, no double-booking, round trips, and keys kept unique.

`Roster.Accounted` says three things:
- the available set is exactly the present employees minus everyone on some list;
- every list holds present employees only;
- no list holds an id twice.

The model follows the code's behaviour in four places worth knowing:

- **Removing an employee removes them from every list but leaves `unfilled_slots` and `is_fully_staffed` as they were** (`app.py:508-510`). The counts therefore no longer describe the list: `Roster.EmployeeRemovedLeavesCounts`.
- **Removing a station deletes its assignment but does not return its staff to the available set** (`app.py:637-639`). They are then present, on no list and not available, so `Roster.Accounted` no longer holds: `Roster.StationRemovedStrands`.
- **A station with a negative `required_headcount` gets nobody**, a negative `unfilled_slots` and `is_fully_staffed == false` (`scheduler/scheduler.py:85-96`). So `len(assigned) <= required_headcount` does not hold after scheduling for a negative headcount. The model keeps this behaviour.
- **`from_json` restores `available_employees` as given.** When the field is missing the set comes back empty, not recomputed (`scheduler/scheduler.py:355`): `Snapshot.MissingAvailableRestoresNone`.

## Model

| member | source | states |
|---|---|---|
| Models.EmptyAssignment | scheduler/models.py:88-94 | A new `Assignment` for a station has an empty list, no open slots and is not fully staffed |
| Models.FreshRotationStats | scheduler/models.py:140-147 | Fresh rotation statistics for a pair have 0.0 hours, 999 days since the last assignment and count 0 |
| Models.DefaultWeights | scheduler/models.py:150-157 | The default weights do not invert skill and sum to one |
| Models.SetCompetency | scheduler/models.py:58-60 | `set_competency` keeps id, name and certification and adds the station to the competency keys |
| Models.GetAfterSet | scheduler/models.py:54-60 | After `set_competency(s, l)`, `get_competency` gives `l` at `s` and the old value (default 0) everywhere else |
| Models.ForgetStation | app.py:634-636 | Deleting a station from an employee's competency map makes the level there 0 and leaves every other station's level unchanged |
| Models.StationFromDict | scheduler/models.py:35-43 | Decoding succeeds exactly when id, name and skill level are present; a missing id is a missing-field error; missing headcount and certification default to 1 and 0 |
| Models.StationRoundTrip | scheduler/models.py:26-43 | `Station.from_dict(to_dict(s)) == s` |
| Models.EmployeeFromDict | scheduler/models.py:70-85 | Decoding succeeds exactly when id and name are present; a missing certification defaults to 0; outside the legacy branch the competency map is the given one, or empty when missing |
| Models.EmployeeRoundTrip | scheduler/models.py:62-85 | `Employee.from_dict(to_dict(e)) == e` |
| Models.LegacyEmployeeIsUnrated | scheduler/models.py:72-79 | A legacy record with `current_skill_level` and no competency map loads with an empty map, so its competency is 0 at every station |
| Models.AssignmentFromDict | scheduler/models.py:104-111 | Decoding succeeds exactly when the station id is present; a missing list, flag and count default to empty, false and 0 |
| Models.AssignmentRoundTrip | scheduler/models.py:96-111 | `Assignment.from_dict(to_dict(a)) == a` |
| Models.LogFromDict | scheduler/models.py:130-137 | Decoding succeeds exactly when date, employee and station are present; missing hours default to 8.0 |
| Models.LogRoundTrip | scheduler/models.py:122-137 | `AssignmentLog.from_dict(to_dict(l)) == l` |
| Lists.RemoveFirst | scheduler/scheduler.py:124 | `list.remove` takes out one occurrence when there is one (length minus one) and otherwise changes nothing |
| Lists.RemoveFirstDistinct | scheduler/scheduler.py:124 | On a duplicate-free list, removal keeps it duplicate-free and removes exactly that id from its elements |
| Ranking.SortByKey | scheduler/scheduler.py:223-228 | Sorting is a permutation of its input |
| Ranking.SortSorted | scheduler/scheduler.py:223-228 | The sorted list is in descending key order |
| Ranking.SortStable | scheduler/scheduler.py:72-76 | The sort is stable: the elements with any one key keep their input order |
| Rotation.CutoffDayIsKept | scheduler/scheduler.py:256-257 | A log dated exactly on the cutoff day is inside the window |
| Rotation.LexLessIrreflexive | scheduler/scheduler.py:256 | The string comparison used for the cutoff is irreflexive |
| Rotation.LexLessAsymmetric | scheduler/scheduler.py:256 | The string comparison used for the cutoff is asymmetric |
| Rotation.BuildRotationStats | scheduler/scheduler.py:241-278 | The loop builds the fold `StatsFold` of the log; every key it holds has an in-window log |
| Rotation.StatsOfKey | scheduler/scheduler.py:253-276 | A pair has statistics exactly when it has a log in the window. Its hours are the sum, its count the number of those logs, and its days the minimum over parseable dates (999 when none parse). Unparseable logs still add hours and count |
| Rotation.MinDaysIsMinimum | scheduler/scheduler.py:270-276 | Days-since-last is at most 999 and at most `today - date` for every parseable date, and it equals one of them unless it is 999 |
| Scoring.LookupScenario | scheduler/scheduler.py:18-24 | A scenario name resolves exactly when it is one of the five, to weights carrying that name; any other name is an error |
| Scoring.ScenarioFacts | scheduler/scheduler.py:18-24 | Only "Cross-Training" inverts skill, and "Balanced" carries the default weights |
| Scoring.RecencyCap | scheduler/scheduler.py:211-218 | A pair last worked 30 or more days ago with no hours scores the same as a pair never worked |
| Scoring.ScoresNormalised | scheduler/scheduler.py:213-214 | For non-negative days and hours, recency and fatigue lie in [0, 1]; a log dated after today gives negative days and is not covered |
| Scoring.FatigueLowersPriority | scheduler/scheduler.py:214-220 | With recency equal, more hours never raise the priority |
| Scoring.RecencyRaisesPriority | scheduler/scheduler.py:213-220 | With hours equal, more days since the last assignment never lower the priority |
| Scoring.SkillDirection | scheduler/scheduler.py:206-220 | Higher competency strictly raises the priority, except under `invert_skill`, where it strictly lowers it |
| Greedy.QualifiedAmongMonotone | scheduler/scheduler.py:189-199 | A larger pool never has fewer qualified candidates |
| Greedy.FallbackKeyOrder | scheduler/scheduler.py:226-227 | The fallback ranks `a` at least as high as `b` exactly when it is ahead in (certification, competency) order, compared lexicographically |
| Greedy.SortRanks | scheduler/scheduler.py:201-228 | Sorting the distinct candidates gives a ranking of exactly that set |
| Greedy.PrefixIsTopPick | scheduler/scheduler.py:85-91 | The first `min(headcount, n)` entries of a ranked list are a top pick of its candidates |
| Greedy.GreedyAt | scheduler/scheduler.py:78-98 | In a greedy pass, every visited station gets an assignment: a top pick from those not taken by earlier stations |
| Greedy.GreedyStaffing | scheduler/scheduler.py:85-96 | A station comes out fully staffed exactly when its pool held at least `required_headcount` qualified candidates; a negative headcount never does |
| Greedy.FilledFromPool | scheduler/scheduler.py:86-91 | Everyone a station takes came from its pool and is qualified |
| Greedy.GreedyDisjoint | scheduler/scheduler.py:86-91 | No employee is assigned to two stations of one pass |
| Greedy.GreedySound | scheduler/scheduler.py:189-199 | Everyone assigned is present, known, and meets both the certification and the competency requirement |
| Greedy.TopPickLeftOut | scheduler/scheduler.py:85-91 | A qualified candidate left out of a top pick means the station is full and everyone on it ranks at least as high |
| Greedy.GreedyEarlierStationsClaimFirst | scheduler/scheduler.py:72-91 | Suppose someone assigned to a later station is qualified for an earlier one. Then the earlier station is full, and everyone on it ranks at least as high there |
| Greedy.GreedyComplete | scheduler/scheduler.py:78-100 | After the pass, the assignment keys are the visited stations, each keyed by its own id, and the available set is the present employees minus everyone assigned |
| Greedy.UnscheduledRebalance | scheduler/scheduler.py:149-171 | Rebalancing a station with no assignment creates an empty one, adds nobody and reports it fully staffed |
| Greedy.RefillIsTopPick | scheduler/scheduler.py:156-167 | Taking the freshly ranked best candidate one at a time is a top pick of the qualified available set |
| Greedy.RefillExhausts | scheduler/scheduler.py:156-161 | A refill leaves slots open only when no qualified available candidate remains |
| Greedy.RefillCloses | scheduler/scheduler.py:156-171 | A refill closes every open slot exactly when there are enough qualified candidates; with no open slots it adds nobody |
| Absence.StruckDone | scheduler/scheduler.py:119-127 | After the loop over all assignments, every list has lost the employee, and the affected stations are exactly those whose list held them |
| Absence.AbsenceExhausts | scheduler/scheduler.py:129-131 | An affected station still open after rebalancing has no qualified available candidate left |
| Absence.AbsenceLeavesNoTrace | scheduler/scheduler.py:115-131 | After `handle_absence`, the absent employee is on no list |
| Snapshot.WellFormedMarkedAbsent | scheduler/scheduler.py:115-117 | Moving a known employee from available to absent keeps the state well-formed |
| Snapshot.DecodeAll | scheduler/scheduler.py:344-345 | Decoding a list succeeds with one record per entry, each the entry's decoding |
| Snapshot.DecodeAllInverse | scheduler/scheduler.py:344-345 | When every entry decodes, the list decodes to exactly those records |
| Snapshot.ToMap | scheduler/scheduler.py:42-43 | The id-keyed dictionary maps every key to a record with that id |
| Snapshot.KeyOrder | scheduler/scheduler.py:42 | The dictionary's key order is duplicate-free and lists exactly its keys |
| Snapshot.MissingTopLevelKeys | scheduler/scheduler.py:344-345 | A snapshot without stations fails with the stations missing-field error; one whose stations decode but which has no employees fails with the employees missing-field error |
| Snapshot.MissingAvailableRestoresNone | scheduler/scheduler.py:355 | A snapshot without `available_employees` restores an empty available set |
| Snapshot.FromSnapshotKeyed | scheduler/scheduler.py:342-362 | A restored state has its dictionaries keyed by their records' ids, a station order over the station keys, and the Balanced scenario |
| Snapshot.DecodeEncodedStations | scheduler/scheduler.py:322-344 | Encoded station lists decode back to themselves |
| Snapshot.DecodeEncodedEmployees | scheduler/scheduler.py:323-345 | Encoded employee lists decode back to themselves |
| Snapshot.DecodeEncodedAssignments | scheduler/scheduler.py:324-352 | Encoded assignment lists decode back to themselves |
| Snapshot.DecodeEncodedLogs | scheduler/scheduler.py:327-360 | Encoded log lists decode back to themselves |
| Snapshot.SnapshotDecodes | scheduler/scheduler.py:321-362 | Restoring any snapshot written from a state rebuilds that state's dictionaries from the written lists, restores the available and absent sets verbatim, and resets the scenario to Balanced |
| Snapshot.SnapshotRoundTrip | scheduler/scheduler.py:314-362 | `from_json(to_json(S))` is S with the scenario reset to Balanced |
| Snapshot.DictionariesRebuilt | scheduler/scheduler.py:42-43 | Rebuilding the dictionaries from their values gives back the same dictionaries and the same station order |
| Engine.VisitOrderCovers | scheduler/scheduler.py:72-76 | The sorted stations list every station exactly once |
| Engine.VisitOrderRanks | scheduler/scheduler.py:72-76 | Stations are visited in non-increasing skill level, and stations of equal level keep their dictionary order |
| Engine.RowStatusAgrees | scheduler/scheduler.py:305-311 | For an assignment whose open-slot count and status match its list, a summary row says "fully_staffed" exactly when filled equals required, and otherwise "unfilled" |
| Engine.Scheduler.constructor | scheduler/scheduler.py:34-48 | A new scheduler has everyone available, nobody absent, no assignments, no logs and the Balanced scenario |
| Engine.Scheduler.IsQualified | scheduler/scheduler.py:230-239 | False for an unknown employee or station; otherwise true exactly when both thresholds are met |
| Engine.Scheduler.GetQualifiedEmployees | scheduler/scheduler.py:173-228 | The result ranks exactly the qualified available employees, in descending priority, or in fallback order when there are no statistics |
| Engine.Scheduler.StaffStation | scheduler/scheduler.py:79-96 | One station is staffed by a top pick of its qualified available candidates, with its counts kept, and the pick leaves the available set |
| Engine.Scheduler.StaffInOrder | scheduler/scheduler.py:78-98 | The station loop produces a greedy pass over the visit order and leaves available = present minus assigned |
| Engine.Scheduler.GenerateSchedule | scheduler/scheduler.py:50-100 | Every station gets an assignment from a greedy pass in visit order over the present employees. Statistics are used only when the log is non-empty. Available ends as present minus assigned. The scenario is replaced only when one is given, and nothing else changes |
| Engine.Scheduler.RefillSlots | scheduler/scheduler.py:155-167 | The while loop appends a refill of the open slots and removes the added employees from the available set |
| Engine.Scheduler.RebalanceKnown | scheduler/scheduler.py:148-171 | A known station's assignment (or a new empty one) is refilled, and it returns whether the station is now fully staffed |
| Engine.Scheduler.RebalanceSchedule | scheduler/scheduler.py:135-171 | An unknown station is an error and changes nothing; a known station is refilled as above |
| Engine.Scheduler.StrikeFromLists | scheduler/scheduler.py:119-127 | The employee is struck from every list, and the result lists, once each, exactly the stations that held them |
| Engine.Scheduler.MarkAbsent | scheduler/scheduler.py:115-117 | The employee joins the absent set and leaves the available set |
| Engine.Scheduler.StrikeAndRebalance | scheduler/scheduler.py:119-131 | The strikes, then a refill of each affected station in turn from what the earlier refills left |
| Engine.Scheduler.RebalanceInOrder | scheduler/scheduler.py:129-131 | The affected stations are refilled in list order, each from the pool the earlier ones left |
| Engine.Scheduler.HandleAbsence | scheduler/scheduler.py:102-133 | An unknown employee is an error and changes nothing. Otherwise the employee becomes absent and is struck from every list, each affected station is rebalanced in turn, and those stations are returned |
| Engine.Scheduler.GetUnfilledStations | scheduler/scheduler.py:280-291 | Exactly the assignment keys that are not fully staffed, each once |
| Engine.Scheduler.GetScheduleSummary | scheduler/scheduler.py:293-312 | One row per assignment, with filled = list length and required = headcount |
| Engine.Scheduler.ToJson | scheduler/scheduler.py:314-329 | The snapshot written restores to the current state with the Balanced scenario |
| Engine.Scheduler.FromJson | scheduler/scheduler.py:331-362 | Fails with the decoding error of a malformed snapshot; otherwise yields a fresh scheduler whose state is the decoded one |
| Engine.Scheduler.RestoreAssignments | scheduler/scheduler.py:349-352 | Each decoded assignment is stored under its station id, and the first decoding error is reported |
| Engine.Scheduler.RestoreLogs | scheduler/scheduler.py:358-360 | The decoded logs are appended in order, and the first decoding error is reported |
| Roster.GeneratedAccounted | scheduler/scheduler.py:66-91 | A state produced by `generate_schedule` is accounted: no one twice, no absent employee assigned, available = present minus assigned |
| Roster.GenerateAccounted | scheduler/scheduler.py:50-100 | Generating a schedule on a well-formed scheduler keeps it well-formed and leaves roster and schedule accounted |
| Roster.PresenceWellFormed | app.py:976-1003 | Marking absent and marking present both keep the state well-formed |
| Roster.MarkedAbsentStrikes | app.py:987-991 | Marking absent removes the employee from every list. A list that held them gets one fewer entry, one more open slot, and `is_fully_staffed` false; other assignments are unchanged |
| Roster.PresenceAccounted | app.py:980-998 | Marking a present employee absent, or an absent employee present, keeps the state accounted |
| Roster.PresenceRoundTrip | app.py:980-998 | Marking an available employee absent and then present restores the sets and leaves them struck from the lists |
| Roster.SetPresence | app.py:976-1003 | A change from present to absent marks absent; a change from absent to present marks present; no change changes nothing. Validity is kept |
| Roster.EmployeeRemovedWellFormed | app.py:505-510 | Removing an employee keeps the state well-formed |
| Roster.PurgedFacts | app.py:508-510 | Removing the employee from every list keeps the lists duplicate-free and takes exactly that id out of the assigned set |
| Roster.EmployeeRemovedAccounted | app.py:505-510 | Removing an employee keeps the state accounted |
| Roster.EmployeeRemovedLeavesCounts | app.py:508-510 | A list that held the removed employee loses them while `unfilled_slots` stays as it was, so the counts no longer match the list |
| Roster.PurgeLists | app.py:508-510 | The loop takes the employee off every list and changes nothing else |
| Roster.RemoveEmployee | app.py:501-514 | The employee leaves the employees, available and absent sets and every list; validity is kept |
| Roster.StationRemovedKeeps | app.py:634-639 | Removing a station keeps the state well-formed, keeps every employee, and makes the removed station's competency 0 while other levels are unchanged |
| Roster.StationRemovedStrands | app.py:637-639 | Staff only on the removed station's list end up present, on no list and not available, so the state is no longer accounted |
| Roster.ForgetLevels | app.py:634-636 | The loop deletes the station from every employee's competency map |
| Roster.RemoveStation | app.py:630-643 | The station leaves the competency maps, the stations, the station order and the assignments; validity is kept |
| Roster.StripStart | app.py:781 | Leading whitespace is dropped, and what remains starts with a non-space |
| Roster.StripEnd | app.py:781 | Trailing whitespace is dropped, and what remains ends with a non-space |
| Roster.StripSpec | app.py:781-785 | `strip()` is the piece of the name between all-whitespace ends, and it starts and ends with a non-space |
| Roster.StripEmpty | app.py:781 | A name strips to empty exactly when it is all whitespace |
| Roster.EmployeeAddedKeeps | app.py:783-790 | Adding an employee under a fresh id, as available, keeps the state well-formed and accounted |
| Roster.AddEmployee | app.py:780-790 | A blank name changes nothing; otherwise the employee is added under the fresh id with the stripped name and made available |
| Overrides.CollectAssigned | app.py:1212-1214 | The loop collects exactly the union of the assigned lists |
| Overrides.UnassignedEmployees | app.py:1212-1216 | The result is the present employees minus everyone on a list |
| Overrides.UnassignedMeans | app.py:1366-1372 | Unassigned means known, not absent and on no list. In an accounted state it is the available set |
| Overrides.OptionsRespectBookings | app.py:1285-1298 | Every option is present and qualified. An option that is on some list is the slot's holder. A present, qualified holder is always an option |
| Overrides.OverrideOptions | app.py:1278-1298 | A slot's options are, once each, the present qualified employees who hold that slot or are on no list |
| Overrides.ListOptions | app.py:1286-1298 | The filter loop yields exactly those options, once each |
| Overrides.TwoSlotsConflict | app.py:1320-1327 | An employee chosen in two different slots is a conflict |
| Overrides.NoConflictsInjective | app.py:1320-1329 | There are no conflicts exactly when no employee is chosen in two slots |
| Overrides.DetectConflicts | app.py:1319-1327 | The loop finds exactly the employees chosen in more than one slot |
| Overrides.SlotPicksMembers | app.py:1340-1344 | A station's new list holds exactly the employees chosen in its slots below the headcount, and no more entries than slots |
| Overrides.SlotPicksDistinct | app.py:1340-1344 | Without conflicts, a station's new list has no duplicates |
| Overrides.PickSlots | app.py:1339-1344 | The slot loop builds the station's new list from its non-empty selections, in slot order |
| Overrides.OverrideWellFormed | app.py:1336-1355 | Applying an override keeps the state well-formed |
| Overrides.OverrideBookkept | app.py:1346-1350 | After an override, each station's counts match its new list, and the list is no longer than the headcount |
| Overrides.OverrideNoDoubleBooking | app.py:1329-1350 | Without conflicts, no list has a duplicate and no employee is on two stations |
| Overrides.OverrideAccounted | app.py:1352-1355 | Without conflicts and with present choices only, the applied state is accounted: available = present minus the newly assigned |
| Overrides.ApplyChoices | app.py:1336-1350 | The station loop rewrites every assignment from the selections and collects the newly assigned ids |
| Overrides.ApplyAll | app.py:1336-1355 | The lists are rewritten, and available becomes present minus the newly assigned |
| Overrides.ApplyOverride | app.py:1318-1355 | Returns the conflicts. With conflicts nothing changes; without them the state becomes the applied override. Validity is kept |
| Overrides.RecommendationSound | app.py:1388-1406 | Every recommendation for an unassigned employee names a listed trainee, known and different from them. The trainer's level there is positive and above the trainee's, and both levels are reported correctly |
| Overrides.RecommendationComplete | app.py:1388-1406 | Every listed, known trainee whose level is below the employee's positive level at that station is recommended |
| Overrides.TraineesAt | app.py:1395-1406 | The trainee loop at one station yields exactly that station's recommendations |
| Overrides.RecommendFor | app.py:1386-1406 | The station loop yields exactly the employee's recommendations |
| Overrides.TrainingRecommendations | app.py:1378-1411 | The unassigned employees are split into those with recommendations (with exactly their recommendations) and those without |
| Overrides.FileRecs | app.py:1408-1411 | One employee is filed under "with" exactly when they have recommendations |
| Finalize.UpsertAt | app.py:1530-1535 | A log whose key is present replaces the first entry with that key, in place |
| Finalize.UpsertAppend | app.py:1536-1538 | A log whose key is absent is appended |
| Finalize.UpsertKeys | app.py:1528-1538 | One upsert adds its key and no other. It grows the log only for a new key, holds the new log, and keeps every entry with another key at its index |
| Finalize.UpsertKeepsMember | app.py:1528-1538 | An entry whose key differs from the new log's survives the upsert |
| Finalize.UpsertDistinct | app.py:1528-1538 | One upsert keeps the keys unique |
| Finalize.UpsertPresent | app.py:1530-1535 | Upserting an entry that is already in a log with unique keys changes nothing |
| Finalize.MergeKeys | app.py:1523-1538 | The merged log's keys are the old keys plus the new ones; unique keys stay unique |
| Finalize.MergeKeepsOthers | app.py:1523-1538 | An old entry whose key no new log has stays at its index |
| Finalize.MergeLastWins | app.py:1528-1538 | The last new log with a given key is in the merged log |
| Finalize.MergeIdempotent | app.py:1523-1538 | Merging the same day's logs (unique keys) a second time changes nothing |
| Finalize.ExistingKeys | app.py:1524-1526 | The first loop collects exactly the keys of the log |
| Finalize.FindFirst | app.py:1532-1535 | The replacing loop stops at the first entry with the key |
| Finalize.MergeLogs | app.py:1523-1538 | The log becomes the merge of the new logs into the old one, in order |

## Left out

- Streamlit rendering, widgets, session state, reruns, the `schedule_generated` flag, `log_action` and `auto_save` in `app.py` are user interface and are not modelled.
- The Supabase calls in the `app.py` rules and `scheduler/supabase_client.py` are network I/O and are not modelled.
- `scheduler/loader.py` and JSON text are not modelled: they are file I/O. `to_json`/`from_json` are modelled on a snapshot record whose lists stand for the JSON arrays.
- `date.today()`, `timedelta` and `strptime` are clock and string parsing. "Today" is an integer day number, the cutoff is a date string, and date parsing is a function parameter that returns an `Option`.
- Floating point: hours, weights and scores are `real`, so IEEE rounding is not modelled.
- Set and dict iteration order is not pinned. `_get_qualified_employees` picks candidates in any order before its stable sort, so ties are unpinned too. Loops over the employee and assignment dicts visit keys in any order. Results that Python builds as lists from such loops are stated as duplicate-free lists with a given element set. Only the station dict's insertion order is kept (`stationOrder`), because the stable station sort depends on it.
- Engine.Scheduler.HandleAbsence: the affected stations are stated as a duplicate-free list with the right element set, not in the order of `self.assignments`.
- Engine.Scheduler.GetUnfilledStations: states the set of stations, not their dict order.
- Records are values: `Employee`, `Assignment` and the logs are datatypes held in the scheduler's maps and sequence. Aliasing of the same Python object from two places is not modelled. This includes the dict that `generate_schedule` returns, which is the scheduler's own `assignments`.
- `generate_id` (a random uuid) is not modelled: Roster.AddEmployee takes the new id as a parameter and requires it to be fresh.
- Engine.Scheduler.GenerateSchedule, Engine.Scheduler.RebalanceSchedule, Engine.Scheduler.HandleAbsence, Engine.Scheduler.ToJson, Engine.Scheduler.GetQualifiedEmployees, Engine.Scheduler.GetScheduleSummary, Overrides.TrainingRecommendations: require a well-formed state (`Valid`, or the lighter conditions that the available set lies among the employees and every assignment names a known station). A snapshot not written by `to_json` (an absent id naming nobody, or available and absent overlapping) can restore to a state that is not well-formed; Python's `generate_schedule` still runs on it because it resets `available` (scheduler/scheduler.py:65-66), and the `KeyError` paths on unknown ids (scheduler/scheduler.py:191, scheduler/scheduler.py:302, app.py:1389) are not modelled.
- Roster.StripStart, Roster.StripEnd, Roster.Strip, Roster.StripSpec, Roster.StripEmpty, Roster.AddEmployee: strip ASCII whitespace only (space, tab, newline, carriage return, vertical tab, form feed), not the other Unicode spaces Python's `str.strip()` also removes.
- Roster.SetPresence, Roster.RemoveEmployee, Roster.RemoveStation: require the id to be known. The source gets these ids from the scheduler's own dictionaries, and `app.py` would raise `KeyError` otherwise.
- Overrides.OverrideOptions: returns the option ids without their display labels and without the leading "(Unassigned)" entry. The "(Unassigned)" choice is `None` in `Selections`.
- Overrides.DetectConflicts: returns the conflicting employee ids, not their slot lists or the error messages built from station names.
- Overrides.TrainingRecommendations: recommendations carry ids instead of display names, and are compared as sets, so a trainee listed twice at one station would be counted once. The display order of employees is not modelled.
- The unassigned count (`app.py:1216`) is the size of `Overrides.UnassignedIn` and has no member of its own.
- `SCENARIO_DESCRIPTIONS`, the skill and certification labels, PDF generation and the Google login are display text, rendering or identity, and are not modelled.
