/**
 * The lesson planner (`LessonPlanning` component): a list of lesson plans,
 * each a draft, scheduled or completed, and the summary cards counting them.
 */
module LessonPlanning {
  import opened Wrappers
  import opened Seqs
  import opened Styles

  /** `Lesson.status`: a closed union of three values. */
  datatype LessonStatus = Draft | Scheduled | Completed

  function LessonStatusName(s: LessonStatus): string {
    match s
    case Draft => "draft"
    case Scheduled => "scheduled"
    case Completed => "completed"
  }

  datatype ResourceType = Video | Document | Image | Link

  /** A lesson's attached resource; `size` is optional. */
  datatype Resource = Resource(id: int, name: string, kind: ResourceType, url: string, size: Option<string>)

  /** The `Lesson` record; `classroom` is its `class` field, `duration` is in minutes. */
  datatype Lesson = Lesson(
    id: int,
    title: string,
    subject: string,
    classroom: string,
    duration: int,
    objectives: seq<string>,
    resources: seq<Resource>,
    status: LessonStatus,
    scheduledDate: string,
    createdAt: string,
    description: string)

  /** `lessons.filter(l => l.status === status).length`: the cards "Scheduled", "Completed" and "Drafts". */
  function CountStatus(lessons: seq<Lesson>, status: LessonStatus): (n: nat)
    ensures n <= |lessons|
  {
    Count(lessons, (l: Lesson) => l.status == status)
  }

  /** The count of a list that starts with a lesson: one more for its status, the same for the others. */
  lemma CountStatusCons(lessons: seq<Lesson>, status: LessonStatus)
    requires lessons != []
    ensures CountStatus(lessons, status) ==
      (if lessons[0].status == status then 1 else 0) + CountStatus(lessons[1..], status)
  {
    CountCons(lessons, (l: Lesson) => l.status == status);
  }

  /** Every lesson has exactly one of the three statuses, so the three cards add up to "Total Lessons". */
  lemma {:induction false} StatusCountsSumToTotal(lessons: seq<Lesson>)
    ensures CountStatus(lessons, Draft) + CountStatus(lessons, Scheduled) + CountStatus(lessons, Completed) == |lessons|
  {
    if lessons != [] {
      CountStatusCons(lessons, Draft);
      CountStatusCons(lessons, Scheduled);
      CountStatusCons(lessons, Completed);
      StatusCountsSumToTotal(lessons[1..]);
    }
  }

  /** Each card counts exactly the lessons with its status, appending a list at a time. */
  lemma CountStatusAppend(xs: seq<Lesson>, ys: seq<Lesson>, status: LessonStatus)
    ensures CountStatus(xs + ys, status) == CountStatus(xs, status) + CountStatus(ys, status)
  {
    CountAppend(xs, ys, (l: Lesson) => l.status == status);
  }

  /** `getStatusColor`: scheduled blue, completed green, draft and anything else the same gray. */
  function StatusColor(status: string): (c: string)
    ensures c == BlueBadge <==> status == "scheduled"
    ensures c == GreenBadge <==> status == "completed"
    ensures c == GrayBadge <==> status !in {"scheduled", "completed"}
  {
    match status
    case "draft" => GrayBadge
    case "scheduled" => BlueBadge
    case "completed" => GreenBadge
    case _ => GrayBadge
  }

  /** A draft looks like an unknown status; the other two statuses get distinct colours. */
  lemma StatusColorOfDraft(unknown: string)
    requires unknown !in {"draft", "scheduled", "completed"}
    ensures StatusColor(LessonStatusName(Draft)) == StatusColor(unknown) == GrayBadge
    ensures StatusColor(LessonStatusName(Scheduled)) != StatusColor(LessonStatusName(Completed))
  {
  }
}
