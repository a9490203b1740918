/**
 * graph/resolver/helpers.go: `convertTimelineToGraphQL`, which turns a stored
 * timeline into its GraphQL form. Identity and text fields are copied, every
 * date is rendered with the layout "2006-01-02", and the owner references,
 * the completion flag, the timestamps and the time of day are dropped.
 * A nil timeline pointer (which would panic in Go) cannot arise with values.
 */
module Resolver {
  import opened GoTime
  import Models
  import GraphModel

  /** Reference conversion of one stored task. */
  function TaskToGraphQL(t: Models.TimelineTask): GraphModel.TimelineTask {
    GraphModel.TimelineTask(t.id, t.title, t.description, FormatDate(t.startDate),
                            FormatDate(t.endDate), t.duration, t.priority)
  }

  /** Reference conversion of a stored timeline, tasks in their stored order. */
  function TimelineToGraphQL(t: Models.Timeline): GraphModel.Timeline {
    GraphModel.Timeline(t.id, t.title, t.description, FormatDate(t.startDate), FormatDate(t.endDate),
      seq(|t.tasks|, i requires 0 <= i < |t.tasks| => TaskToGraphQL(t.tasks[i])))
  }

  /** `convertTimelineToGraphQL`: fills a task slice of the input's length in order, then builds the timeline. */
  method ConvertTimelineToGraphQL(timeline: Models.Timeline) returns (r: GraphModel.Timeline)
    ensures r == TimelineToGraphQL(timeline)
  {
    ghost var expected := TimelineToGraphQL(timeline).tasks;
    var tasks := new GraphModel.TimelineTask[|timeline.tasks|];
    for i := 0 to |timeline.tasks|
      invariant tasks[..i] == expected[..i]
    {
      var task := timeline.tasks[i];
      tasks[i] := GraphModel.TimelineTask(task.id, task.title, task.description,
                                          FormatDate(task.startDate), FormatDate(task.endDate),
                                          task.duration, task.priority);
      assert tasks[..i + 1] == tasks[..i] + [tasks[i]];
      assert expected[..i + 1] == expected[..i] + [expected[i]];
    }
    assert tasks[..] == tasks[..|timeline.tasks|];
    r := GraphModel.Timeline(timeline.id, timeline.title, timeline.description,
                             FormatDate(timeline.startDate), FormatDate(timeline.endDate), tasks[..]);
  }

  /**
   * Same task count and order; task i keeps ID, Title, Description, Duration and
   * Priority of stored task i and renders its dates; the timeline keeps its ID,
   * Title and Description and renders its dates.
   */
  lemma TimelineToGraphQLCopies(t: Models.Timeline)
    ensures var w := TimelineToGraphQL(t);
      && w.id == t.id && w.title == t.title && w.description == t.description
      && w.startDate == FormatDate(t.startDate) && w.endDate == FormatDate(t.endDate)
      && |w.tasks| == |t.tasks|
      && forall i :: 0 <= i < |t.tasks| ==>
           && w.tasks[i].id == t.tasks[i].id
           && w.tasks[i].title == t.tasks[i].title
           && w.tasks[i].description == t.tasks[i].description
           && w.tasks[i].duration == t.tasks[i].duration
           && w.tasks[i].priority == t.tasks[i].priority
           && w.tasks[i].startDate == FormatDate(t.tasks[i].startDate)
           && w.tasks[i].endDate == FormatDate(t.tasks[i].endDate)
  {
  }

  /** Both dates of the task are valid and have a year from 0 to 9999. */
  predicate TaskDatesInRange(t: Models.TimelineTask) {
    && t.startDate.date.Valid() && t.startDate.date.FourDigitYear()
    && t.endDate.date.Valid() && t.endDate.date.FourDigitYear()
  }

  /** Every date of a stored task is one `time.Time` can hold. */
  predicate TaskDatesValid(t: Models.TimelineTask) {
    t.startDate.date.Valid() && t.endDate.date.Valid()
  }

  predicate TimelineDatesValid(t: Models.Timeline) {
    && t.startDate.date.Valid() && t.endDate.date.Valid()
    && forall i :: 0 <= i < |t.tasks| ==> TaskDatesValid(t.tasks[i])
  }

  predicate TimelineDatesInRange(t: Models.Timeline) {
    && t.startDate.date.Valid() && t.startDate.date.FourDigitYear()
    && t.endDate.date.Valid() && t.endDate.date.FourDigitYear()
    && forall i :: 0 <= i < |t.tasks| ==> TaskDatesInRange(t.tasks[i])
  }

  /** With years 0 to 9999, every date string of the result has the ten-character `YYYY-MM-DD` form. */
  lemma TimelineToGraphQLDates(t: Models.Timeline)
    requires TimelineDatesInRange(t)
    ensures IsDateString(TimelineToGraphQL(t).startDate) && IsDateString(TimelineToGraphQL(t).endDate)
    ensures forall i :: 0 <= i < |t.tasks| ==>
      IsDateString(TimelineToGraphQL(t).tasks[i].startDate) && IsDateString(TimelineToGraphQL(t).tasks[i].endDate)
  {
    var w := TimelineToGraphQL(t);
    FormatDateShape(t.startDate);
    FormatDateShape(t.endDate);
    forall i | 0 <= i < |t.tasks|
      ensures IsDateString(w.tasks[i].startDate) && IsDateString(w.tasks[i].endDate)
    {
      var task := t.tasks[i];
      assert TaskDatesInRange(task);
      assert w.tasks[i] == TaskToGraphQL(task);
      FormatDateShape(task.startDate);
      FormatDateShape(task.endDate);
    }
  }

  /** The two tasks agree on everything the wire form keeps: all but TimelineID, Completed, the timestamps and the time of day. */
  predicate SameWireTask(a: Models.TimelineTask, b: Models.TimelineTask) {
    && a.id == b.id && a.title == b.title && a.description == b.description
    && a.startDate.date == b.startDate.date && a.endDate.date == b.endDate.date
    && a.duration == b.duration && a.priority == b.priority
  }

  /** The two timelines agree on everything the wire form keeps: all but GoalID, the timestamps and the time of day. */
  predicate SameWireTimeline(a: Models.Timeline, b: Models.Timeline) {
    && a.id == b.id && a.title == b.title && a.description == b.description
    && a.startDate.date == b.startDate.date && a.endDate.date == b.endDate.date
    && |a.tasks| == |b.tasks|
    && forall i :: 0 <= i < |a.tasks| ==> SameWireTask(a.tasks[i], b.tasks[i])
  }

  /** Tasks that differ only in dropped fields convert alike; with valid dates the converse holds too. */
  lemma TaskToGraphQLKeeps(a: Models.TimelineTask, b: Models.TimelineTask)
    ensures SameWireTask(a, b) ==> TaskToGraphQL(a) == TaskToGraphQL(b)
    ensures TaskDatesValid(a) && TaskDatesValid(b) ==>
      (TaskToGraphQL(a) == TaskToGraphQL(b) <==> SameWireTask(a, b))
  {
    if TaskDatesValid(a) && TaskDatesValid(b) {
      FormatDateInjective(a.startDate, b.startDate);
      FormatDateInjective(a.endDate, b.endDate);
    }
  }

  /** Timelines that differ only in dropped fields convert alike; with valid dates the converse holds too. */
  lemma TimelineToGraphQLKeeps(a: Models.Timeline, b: Models.Timeline)
    ensures SameWireTimeline(a, b) ==> TimelineToGraphQL(a) == TimelineToGraphQL(b)
    ensures TimelineDatesValid(a) && TimelineDatesValid(b) ==>
      (TimelineToGraphQL(a) == TimelineToGraphQL(b) <==> SameWireTimeline(a, b))
  {
    var wa, wb := TimelineToGraphQL(a), TimelineToGraphQL(b);
    if SameWireTimeline(a, b) {
      forall i | 0 <= i < |a.tasks| ensures wa.tasks[i] == wb.tasks[i] {
        TaskToGraphQLKeeps(a.tasks[i], b.tasks[i]);
      }
      assert wa.tasks == wb.tasks;
    }
    if TimelineDatesValid(a) && TimelineDatesValid(b) && wa == wb {
      FormatDateInjective(a.startDate, b.startDate);
      FormatDateInjective(a.endDate, b.endDate);
      assert |a.tasks| == |wa.tasks| == |wb.tasks| == |b.tasks|;
      forall i | 0 <= i < |a.tasks| ensures SameWireTask(a.tasks[i], b.tasks[i]) {
        assert wa.tasks[i] == wb.tasks[i];
        TaskToGraphQLKeeps(a.tasks[i], b.tasks[i]);
      }
    }
  }
}
