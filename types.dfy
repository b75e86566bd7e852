/**
 * The lesson-plan document model and the standard-definition record, with
 * the two optional fields the code uses beyond the declared interfaces:
 * `isFolder` on a standard (written by the tab-separated parser) and
 * `ainara_activities` on an activity (read by the activity view).
 */
module Types {

  datatype Option<T> = None | Some(value: T)

  /** The fixed five-level rubric, highest level first. */
  datatype Rubric = Rubric(
    score4Proficient: string,
    score3Developing: string,
    score2Beginning: string,
    score1NotYet: string,
    score0NoParticipation: string)

  /** A suggested activity shown alongside an activity; never validated. */
  datatype AinaraActivity = AinaraActivity(title: string, rationale: string)

  datatype Activity = Activity(
    title: string,
    timeframe: string,
    studentWillStatement: string,
    assignmentDescription: string,
    evaluationCriteria: Rubric,
    activityStandards: seq<string>,
    ainaraActivities: Option<seq<AinaraActivity>>)

  datatype LessonPlan = LessonPlan(
    title: string,
    description: string,
    subject: string,
    overarchingGoalsStandards: seq<string>,
    activities: seq<Activity>,
    notes: Option<string>)

  datatype StandardDefinition = StandardDefinition(
    id: string,
    description: string,
    category: Option<string>,
    isFolder: Option<bool>)

  /** The standards database: a plain record keyed by standard ID. */
  type StandardsDb = map<string, StandardDefinition>
}
