/**
 * The GraphQL wire records of graph/model/models.go. Dates are plain strings.
 * Go holds the tasks as a slice of pointers to freshly built structs that are
 * never shared or changed afterwards, so they are values here.
 */
module GraphModel {

  /** `model.TimelineTask`. */
  datatype TimelineTask = TimelineTask(
    id: string,
    title: string,
    description: string,
    startDate: string,
    endDate: string,
    duration: string,
    priority: int)

  /** `model.Timeline`. */
  datatype Timeline = Timeline(
    id: string,
    title: string,
    description: string,
    startDate: string,
    endDate: string,
    tasks: seq<TimelineTask>)
}
