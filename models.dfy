/**
 * The internal records of internal/models/models.go that the resolver helper
 * converts: a stored timeline with its tasks. Go's `time.Time` fields are
 * `GoTime.Time` values.
 */
module Models {
  import opened GoTime

  /** A stored task: `models.TimelineTask`. */
  datatype TimelineTask = TimelineTask(
    id: string,
    timelineId: string,
    title: string,
    description: string,
    startDate: Time,
    endDate: Time,
    duration: string,
    priority: int,
    completed: bool,
    createdAt: Time,
    updatedAt: Time)

  /** A stored timeline: `models.Timeline`, tasks in the order they were loaded. */
  datatype Timeline = Timeline(
    id: string,
    goalId: string,
    title: string,
    description: string,
    startDate: Time,
    endDate: Time,
    createdAt: Time,
    updatedAt: Time,
    tasks: seq<TimelineTask>)
}
