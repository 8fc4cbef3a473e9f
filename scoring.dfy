/**
 * The named weight profiles (`MatrixScheduler.SCENARIOS`) and the priority score
 * `_get_qualified_employees` gives a qualified candidate when rotation history exists.
 * Scores are reals: float rounding is not modelled.
 */
module Scoring {
  import opened Wrappers
  import opened Models

  const Balanced: ScenarioWeights := ScenarioWeights("Balanced", 0.40, 0.35, 0.25, false)
  const MaxCompetency: ScenarioWeights := ScenarioWeights("Max Competency", 0.75, 0.10, 0.15, false)
  const CrossTraining: ScenarioWeights := ScenarioWeights("Cross-Training", 0.10, 0.55, 0.35, true)
  const FatigueAware: ScenarioWeights := ScenarioWeights("Fatigue Aware", 0.30, 0.25, 0.45, false)
  const FreshRotation: ScenarioWeights := ScenarioWeights("Fresh Rotation", 0.20, 0.60, 0.20, false)

  const Scenarios: map<string, ScenarioWeights> := map[
    "Balanced" := Balanced,
    "Max Competency" := MaxCompetency,
    "Cross-Training" := CrossTraining,
    "Fatigue Aware" := FatigueAware,
    "Fresh Rotation" := FreshRotation]

  /** `SCENARIOS[name]`: an unknown name is an error, never a silent default. */
  function LookupScenario(name: string): (r: Result<ScenarioWeights, Error>)
    ensures r.Ok? <==> name in Scenarios
    ensures r.Ok? ==> r.value.name == name
    ensures r.Err? ==> r.error == UnknownScenario(name)
  {
    if name in Scenarios then Ok(Scenarios[name]) else Err(UnknownScenario(name))
  }

  /** Only Cross-Training prefers lower skill, and Balanced is the dataclass default profile. */
  lemma ScenarioFacts(name: string)
    requires name in Scenarios
    ensures Scenarios[name].invertSkill <==> name == "Cross-Training"
    ensures Scenarios["Balanced"] == DefaultWeights("Balanced")
  {
  }

  // Scores: a candidate with no statistics for the pair counts as never assigned here.
  const RecencyHorizonDays: int := 30
  const FatigueCapHours: real := 240.0
  /** Highest competency (4) plus highest certification (2). */
  const SkillCeiling: real := 6.0

  function SkillScore(competency: int, certification: int, invert: bool): real
  {
    var s := (competency + certification) as real / SkillCeiling;
    if invert then 1.0 - s else s
  }

  function RecencyScore(stats: Option<RotationStats>): real
  {
    match stats
    case None => 1.0
    case Some(rs) =>
      (if rs.daysSinceLast <= RecencyHorizonDays then rs.daysSinceLast else RecencyHorizonDays) as real
        / RecencyHorizonDays as real
  }

  function FatigueScore(stats: Option<RotationStats>): real
  {
    match stats
    case None => 0.0
    case Some(rs) => (if rs.totalHours <= FatigueCapHours then rs.totalHours else FatigueCapHours) / FatigueCapHours
  }

  /** `priority = sw * skill + rw * recency - fw * fatigue`. */
  function Priority(competency: int, certification: int, stats: Option<RotationStats>, w: ScenarioWeights): real
  {
    w.skillWeight * SkillScore(competency, certification, w.invertSkill)
      + w.recencyWeight * RecencyScore(stats)
      - w.fatigueWeight * FatigueScore(stats)
  }

  /** A pair idle for 30 days or more scores like one never assigned here (the recency cap). */
  lemma RecencyCap(rs: RotationStats, competency: int, certification: int, w: ScenarioWeights)
    requires rs.daysSinceLast >= RecencyHorizonDays && rs.totalHours == 0.0
    ensures Priority(competency, certification, Some(rs), w) == Priority(competency, certification, None, w)
  {
  }

  /** Recency and fatigue are normalised into [0, 1] for non-negative inputs. */
  lemma ScoresNormalised(rs: RotationStats)
    requires rs.daysSinceLast >= 0 && rs.totalHours >= 0.0
    ensures 0.0 <= RecencyScore(Some(rs)) <= 1.0
    ensures 0.0 <= FatigueScore(Some(rs)) <= 1.0
  {
  }

  /** With a non-negative fatigue weight, more hours in the window never raise a candidate's priority. */
  lemma FatigueLowersPriority(a: RotationStats, b: RotationStats, competency: int, certification: int, w: ScenarioWeights)
    requires a.daysSinceLast == b.daysSinceLast && a.totalHours <= b.totalHours
    requires w.fatigueWeight >= 0.0
    ensures Priority(competency, certification, Some(b), w) <= Priority(competency, certification, Some(a), w)
  {
    assert FatigueScore(Some(a)) <= FatigueScore(Some(b));
  }

  /** With a non-negative recency weight, a longer gap never lowers a candidate's priority. */
  lemma RecencyRaisesPriority(a: RotationStats, b: RotationStats, competency: int, certification: int, w: ScenarioWeights)
    requires a.totalHours == b.totalHours && a.daysSinceLast <= b.daysSinceLast
    requires w.recencyWeight >= 0.0
    ensures Priority(competency, certification, Some(a), w) <= Priority(competency, certification, Some(b), w)
  {
    assert RecencyScore(Some(a)) <= RecencyScore(Some(b));
  }

  /**
   * The skill term rewards skill unless `invert_skill` is set, in which case it
   * rewards the lack of it (Cross-Training).
   */
  lemma SkillDirection(c1: int, c2: int, certification: int, stats: Option<RotationStats>, w: ScenarioWeights)
    requires c1 < c2 && w.skillWeight > 0.0
    ensures !w.invertSkill ==> Priority(c1, certification, stats, w) < Priority(c2, certification, stats, w)
    ensures w.invertSkill ==> Priority(c1, certification, stats, w) > Priority(c2, certification, stats, w)
  {
    var s1 := (c1 + certification) as real / SkillCeiling;
    var s2 := (c2 + certification) as real / SkillCeiling;
    assert s1 < s2;
    if w.invertSkill {
      assert SkillScore(c1, certification, true) > SkillScore(c2, certification, true);
      assert w.skillWeight * SkillScore(c1, certification, true) > w.skillWeight * SkillScore(c2, certification, true);
    } else {
      assert w.skillWeight * SkillScore(c1, certification, false) < w.skillWeight * SkillScore(c2, certification, false);
    }
  }
}
