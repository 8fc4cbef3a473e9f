/**
 * The value types of the scheduler: stations, employees, assignments,
 * historical assignment logs, rotation statistics and scenario weights,
 * together with their dictionary forms (`to_dict` / `from_dict`).
 *
 * A dictionary is modelled as a record with one optional field per key, so a
 * key missing from the dictionary is `None`. Reading a required key that is
 * missing raises `KeyError` in the source; here it yields `Err(MissingField(k))`
 * for the first such key in the order the source reads them.
 */
module Models {
  import opened Wrappers

  type Id = string

  datatype Error =
    | MissingField(field: string)
    | UnknownEmployee(employeeId: Id)
    | UnknownStation(stationId: Id)
    | UnknownScenario(name: string)

  datatype Station = Station(
    id: Id,
    name: string,
    requiredSkillLevel: int,
    requiredHeadcount: int,
    requiredCertification: int)

  datatype Employee = Employee(
    id: Id,
    name: string,
    stationCompetencies: map<Id, int>,
    certificationLevel: int)

  datatype Assignment = Assignment(
    stationId: Id,
    assignedEmployeeIds: seq<Id>,
    isFullyStaffed: bool,
    unfilledSlots: int)

  /** One day's work of one employee at one station; the date is kept as the text "YYYY-MM-DD". */
  datatype AssignmentLog = AssignmentLog(
    logDate: string,
    employeeId: Id,
    stationId: Id,
    hours: real)

  datatype RotationStats = RotationStats(
    employeeId: Id,
    stationId: Id,
    totalHours: real,
    daysSinceLast: int,
    assignmentCount: nat)

  datatype ScenarioWeights = ScenarioWeights(
    name: string,
    skillWeight: real,
    recencyWeight: real,
    fatigueWeight: real,
    invertSkill: bool)

  // Dataclass defaults.
  const DefaultHeadcount: int := 1
  const DefaultCertification: int := 0
  const DefaultHours: real := 8.0
  /** `days_since_last` of a pair never seen in the window. */
  const NeverAssignedDays: int := 999

  /** `Assignment(station_id=...)` with every other field at its default. */
  function EmptyAssignment(stationId: Id): (a: Assignment)
    ensures a.stationId == stationId && a.assignedEmployeeIds == []
    ensures !a.isFullyStaffed && a.unfilledSlots == 0
  {
    Assignment(stationId, [], false, 0)
  }

  /** `RotationStats(employee_id=..., station_id=...)` with every other field at its default. */
  function FreshRotationStats(employeeId: Id, stationId: Id): (s: RotationStats)
    ensures s.employeeId == employeeId && s.stationId == stationId
    ensures s.totalHours == 0.0 && s.daysSinceLast == NeverAssignedDays && s.assignmentCount == 0
  {
    RotationStats(employeeId, stationId, 0.0, NeverAssignedDays, 0)
  }

  /** `ScenarioWeights(name)` with the default weights, which are those of Balanced. */
  function DefaultWeights(name: string): (w: ScenarioWeights)
    ensures w.name == name && !w.invertSkill
    ensures w.skillWeight + w.recencyWeight + w.fatigueWeight == 1.0
  {
    ScenarioWeights(name, 0.40, 0.35, 0.25, false)
  }

  // ---------------------------------------------------------------------------
  // Competency

  /** The employee's rated level at a station; a station that is not rated counts as level 0. */
  function GetCompetency(e: Employee, stationId: Id): int
  {
    if stationId in e.stationCompetencies then e.stationCompetencies[stationId] else 0
  }

  /** `set_competency`: the in-place update of one entry of the competency map, on a value. */
  function SetCompetency(e: Employee, stationId: Id, level: int): (r: Employee)
    ensures r.id == e.id && r.name == e.name && r.certificationLevel == e.certificationLevel
    ensures r.stationCompetencies.Keys == e.stationCompetencies.Keys + {stationId}
  {
    e.(stationCompetencies := e.stationCompetencies[stationId := level])
  }

  /** After `set_competency(s, l)` the level at `s` is `l` and every other level is what it was. */
  lemma GetAfterSet(e: Employee, s: Id, level: int, t: Id)
    ensures GetCompetency(SetCompetency(e, s, level), t) == if t == s then level else GetCompetency(e, t)
  {
  }

  /** Deleting a station's entry from the competency map (the station-removal cascade). */
  function ForgetStation(e: Employee, stationId: Id): (r: Employee)
    ensures r.id == e.id && r.name == e.name && r.certificationLevel == e.certificationLevel
    ensures GetCompetency(r, stationId) == 0
    ensures forall t :: t != stationId ==> GetCompetency(r, t) == GetCompetency(e, t)
  {
    e.(stationCompetencies := e.stationCompetencies - {stationId})
  }

  // ---------------------------------------------------------------------------
  // Dictionary forms

  datatype StationDict = StationDict(
    id: Option<Id>,
    name: Option<string>,
    requiredSkillLevel: Option<int>,
    requiredHeadcount: Option<int>,
    requiredCertification: Option<int>)

  datatype EmployeeDict = EmployeeDict(
    id: Option<Id>,
    name: Option<string>,
    stationCompetencies: Option<map<Id, int>>,
    certificationLevel: Option<int>,
    /** The legacy single skill level, present only in old files. */
    currentSkillLevel: Option<int>)

  datatype AssignmentDict = AssignmentDict(
    stationId: Option<Id>,
    assignedEmployeeIds: Option<seq<Id>>,
    isFullyStaffed: Option<bool>,
    unfilledSlots: Option<int>)

  datatype LogDict = LogDict(
    logDate: Option<string>,
    employeeId: Option<Id>,
    stationId: Option<Id>,
    hours: Option<real>)

  function StationToDict(s: Station): StationDict
  {
    StationDict(Some(s.id), Some(s.name), Some(s.requiredSkillLevel),
                Some(s.requiredHeadcount), Some(s.requiredCertification))
  }

  /** `Station.from_dict`: id, name and required_skill_level are required; the other two default. */
  function StationFromDict(d: StationDict): (r: Result<Station, Error>)
    ensures r.Ok? <==> d.id.Some? && d.name.Some? && d.requiredSkillLevel.Some?
    ensures d.id.None? ==> r == Err(MissingField("id"))
    ensures r.Ok? ==> (r.value.id == d.id.value && r.value.name == d.name.value
                       && r.value.requiredSkillLevel == d.requiredSkillLevel.value)
    ensures r.Ok? && d.requiredHeadcount.None? ==> r.value.requiredHeadcount == DefaultHeadcount
    ensures r.Ok? && d.requiredCertification.None? ==> r.value.requiredCertification == DefaultCertification
  {
    if d.id.None? then Err(MissingField("id"))
    else if d.name.None? then Err(MissingField("name"))
    else if d.requiredSkillLevel.None? then Err(MissingField("required_skill_level"))
    else Ok(Station(d.id.value, d.name.value, d.requiredSkillLevel.value,
                    d.requiredHeadcount.GetOr(DefaultHeadcount),
                    d.requiredCertification.GetOr(DefaultCertification)))
  }

  lemma StationRoundTrip(s: Station)
    ensures StationFromDict(StationToDict(s)) == Ok(s)
  {
  }

  /** `Employee.to_dict`: the competency map is copied (a value here), and no legacy key is written. */
  function EmployeeToDict(e: Employee): EmployeeDict
  {
    EmployeeDict(Some(e.id), Some(e.name), Some(e.stationCompetencies), Some(e.certificationLevel), None)
  }

  /** `Employee.from_dict`, with its branch for the legacy format. */
  function EmployeeFromDict(d: EmployeeDict): (r: Result<Employee, Error>)
    ensures r.Ok? <==> d.id.Some? && d.name.Some?
    ensures d.id.None? ==> r == Err(MissingField("id"))
    ensures r.Ok? ==> r.value.id == d.id.value && r.value.name == d.name.value
    ensures r.Ok? ==> r.value.certificationLevel == d.certificationLevel.GetOr(DefaultCertification)
    ensures r.Ok? && !(d.currentSkillLevel.Some? && d.stationCompetencies.None?) ==>
      r.value.stationCompetencies == d.stationCompetencies.GetOr(map[])
  {
    if d.id.None? then Err(MissingField("id"))
    else if d.name.None? then Err(MissingField("name"))
    else if d.currentSkillLevel.Some? && d.stationCompetencies.None? then
      // legacy record: the flat skill level is dropped
      Ok(Employee(d.id.value, d.name.value, map[], d.certificationLevel.GetOr(DefaultCertification)))
    else
      Ok(Employee(d.id.value, d.name.value, d.stationCompetencies.GetOr(map[]),
                  d.certificationLevel.GetOr(DefaultCertification)))
  }

  lemma EmployeeRoundTrip(e: Employee)
    ensures EmployeeFromDict(EmployeeToDict(e)) == Ok(e)
  {
  }

  /** A legacy record loads with no ratings at all: its competency is 0 at every station. */
  lemma LegacyEmployeeIsUnrated(d: EmployeeDict, s: Id)
    requires d.id.Some? && d.name.Some?
    requires d.currentSkillLevel.Some? && d.stationCompetencies.None?
    ensures EmployeeFromDict(d).Ok?
    ensures EmployeeFromDict(d).value.stationCompetencies == map[]
    ensures GetCompetency(EmployeeFromDict(d).value, s) == 0
  {
  }

  function AssignmentToDict(a: Assignment): AssignmentDict
  {
    AssignmentDict(Some(a.stationId), Some(a.assignedEmployeeIds), Some(a.isFullyStaffed), Some(a.unfilledSlots))
  }

  /** `Assignment.from_dict`: only station_id is required. */
  function AssignmentFromDict(d: AssignmentDict): (r: Result<Assignment, Error>)
    ensures r.Ok? <==> d.stationId.Some?
    ensures r.Ok? ==> r.value.stationId == d.stationId.value
    ensures r.Ok? && d.assignedEmployeeIds.None? ==> r.value.assignedEmployeeIds == []
    ensures r.Ok? && d.isFullyStaffed.None? ==> !r.value.isFullyStaffed
    ensures r.Ok? && d.unfilledSlots.None? ==> r.value.unfilledSlots == 0
  {
    if d.stationId.None? then Err(MissingField("station_id"))
    else Ok(Assignment(d.stationId.value, d.assignedEmployeeIds.GetOr([]),
                       d.isFullyStaffed.GetOr(false), d.unfilledSlots.GetOr(0)))
  }

  lemma AssignmentRoundTrip(a: Assignment)
    ensures AssignmentFromDict(AssignmentToDict(a)) == Ok(a)
  {
  }

  function LogToDict(l: AssignmentLog): LogDict
  {
    LogDict(Some(l.logDate), Some(l.employeeId), Some(l.stationId), Some(l.hours))
  }

  /** `AssignmentLog.from_dict`: date, employee and station are required; hours default to 8. */
  function LogFromDict(d: LogDict): (r: Result<AssignmentLog, Error>)
    ensures r.Ok? <==> d.logDate.Some? && d.employeeId.Some? && d.stationId.Some?
    ensures r.Ok? ==> (r.value.logDate == d.logDate.value && r.value.employeeId == d.employeeId.value
                       && r.value.stationId == d.stationId.value)
    ensures r.Ok? && d.hours.None? ==> r.value.hours == DefaultHours
  {
    if d.logDate.None? then Err(MissingField("log_date"))
    else if d.employeeId.None? then Err(MissingField("employee_id"))
    else if d.stationId.None? then Err(MissingField("station_id"))
    else Ok(AssignmentLog(d.logDate.value, d.employeeId.value, d.stationId.value, d.hours.GetOr(DefaultHours)))
  }

  lemma LogRoundTrip(l: AssignmentLog)
    ensures LogFromDict(LogToDict(l)) == Ok(l)
  {
  }
}
