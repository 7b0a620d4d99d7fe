/**
 * The assignments view (`AssignmentManagement` component): summary cards over
 * the assignment list, each assignment's submission progress and average
 * score, and the submissions table.
 */
module AssignmentManagement {
  import opened Wrappers
  import opened Seqs
  import opened Numbers
  import opened Styles

  datatype AssignmentStatus = Draft | Active | Completed | Graded

  function AssignmentStatusName(s: AssignmentStatus): string {
    match s
    case Draft => "draft"
    case Active => "active"
    case Completed => "completed"
    case Graded => "graded"
  }

  /** The `Assignment` record; `classroom` is its `class` field, `averageScore` is optional. */
  datatype Assignment = Assignment(
    id: int,
    title: string,
    description: string,
    subject: string,
    classroom: string,
    dueDate: string,
    createdAt: string,
    totalStudents: nat,
    submittedStudents: nat,
    status: AssignmentStatus,
    maxMarks: int,
    averageScore: Option<int>,
    instructions: string,
    attachments: seq<string>)

  datatype SubmissionStatus = Submitted | Graded | Late

  function SubmissionStatusName(s: SubmissionStatus): string {
    match s
    case Submitted => "submitted"
    case Graded => "graded"
    case Late => "late"
  }

  /** The `Submission` record; `score` and `feedback` are optional. */
  datatype Submission = Submission(
    id: int,
    studentName: string,
    studentId: string,
    submittedAt: string,
    status: SubmissionStatus,
    score: Option<int>,
    feedback: Option<string>,
    attachments: seq<string>)

  /** JavaScript truthiness of an optional number: present and not 0. */
  predicate Truthy(x: Option<int>) {
    x.Some? && x.value != 0
  }

  /** `x || 0` on an optional number. */
  function ValueOrZero(x: Option<int>): (r: int)
    ensures Truthy(x) ==> r == x.value
    ensures !Truthy(x) ==> r == 0
  {
    if x.Some? then x.value else 0
  }

  // ---------------------------------------------------------------- summary cards

  /** The "Active" card: `assignments.filter(a => a.status === 'active').length`. */
  function ActiveCount(assignments: seq<Assignment>): (n: nat)
    ensures n <= |assignments|
  {
    Count(assignments, (a: Assignment) => a.status == Active)
  }

  /** The "Graded" card: `assignments.filter(a => a.status === 'graded').length`. */
  function GradedCount(assignments: seq<Assignment>): (n: nat)
    ensures n <= |assignments|
  {
    Count(assignments, (a: Assignment) => a.status == AssignmentStatus.Graded)
  }

  /** No assignment is both active and graded, so together the two cards never exceed the total. */
  lemma {:induction false} ActiveAndGradedWithinTotal(assignments: seq<Assignment>)
    ensures ActiveCount(assignments) + GradedCount(assignments) <= |assignments|
  {
    if assignments != [] {
      ActiveAndGradedWithinTotal(assignments[1..]);
      CountCons(assignments, (a: Assignment) => a.status == Active);
      CountCons(assignments, (a: Assignment) => a.status == AssignmentStatus.Graded);
    }
  }

  /** `a => a.averageScore`, the filter that keeps assignments with a truthy average score. */
  predicate HasAverage(a: Assignment) {
    Truthy(a.averageScore)
  }

  /** `a => a.averageScore || 0`, the summand of the reduce. */
  function AverageOf(a: Assignment): int {
    ValueOrZero(a.averageScore)
  }

  /** The assignments with a truthy average score, in order. */
  function Scored(assignments: seq<Assignment>): (r: seq<Assignment>)
    ensures IsSubsequence(r, assignments)
    ensures forall i | 0 <= i < |r| :: r[i] in assignments
    ensures forall i | 0 <= i < |r| :: Truthy(r[i].averageScore)
    ensures forall i | 0 <= i < |assignments| && Truthy(assignments[i].averageScore) :: assignments[i] in r
  {
    Filter(assignments, HasAverage)
  }

  /**
   * The "Avg. Score" card: the rounded mean of the truthy average scores only
   * (the others count neither in the sum nor in the denominator), and 0 when
   * there is none, since `NaN || 0` is 0.
   */
  function AverageScore(assignments: seq<Assignment>): (r: int)
    ensures Scored(assignments) == [] ==> r == 0
    ensures var s := Scored(assignments);
      s != [] ==> 2 * |s| * r - |s| <= 2 * Sum(s, AverageOf) < 2 * |s| * r + |s|
  {
    OrZero(RoundedMean(Scored(assignments), AverageOf))
  }

  /** An assignment without a truthy average score does not move the card, wherever it is added. */
  lemma AverageIgnoresUnscored(before: seq<Assignment>, a: Assignment, after: seq<Assignment>)
    requires !Truthy(a.averageScore)
    ensures AverageScore(before + [a] + after) == AverageScore(before + after)
  {
    assert [a][1..] == [];
    assert Filter([a], HasAverage) == [];
    FilterAppend(before + [a], after, HasAverage);
    FilterAppend(before, [a], HasAverage);
    assert Filter(before + [a], HasAverage) == Filter(before, HasAverage);
    FilterAppend(before, after, HasAverage);
    assert Scored(before + [a] + after) == Scored(before + after);
  }

  /** Average scores that are percentages average to a percentage. */
  lemma AverageScoreIsPercentage(assignments: seq<Assignment>)
    requires forall i | 0 <= i < |assignments| :: 0 <= ValueOrZero(assignments[i].averageScore) <= 100
    ensures 0 <= AverageScore(assignments) <= 100
  {
    var s := Scored(assignments);
    if s != [] {
      forall i | 0 <= i < |s| ensures 0 <= ValueOrZero(s[i].averageScore) <= 100 {
        var j :| 0 <= j < |assignments| && assignments[j] == s[i];
      }
      RoundedMeanBounds(s, AverageOf, 0, 100);
    }
  }

  /** Of three assignments whose middle one has no average score, the other two are scored. */
  lemma ScoredOfThree(x: Assignment, y: Assignment, z: Assignment)
    requires HasAverage(x) && !HasAverage(y) && HasAverage(z)
    ensures Scored([x, y, z]) == [x, z]
  {
    assert [x, y, z][1..] == [y, z] && [y, z][1..] == [z] && [z][1..] == [];
    assert Filter([z], HasAverage) == [z];
    assert Filter([y, z], HasAverage) == [z];
    assert Filter([x, y, z], HasAverage) == [x] + [z];
  }

  /** The initial list: scores 87, none and 92 average to 90 (89.5 rounds up). */
  lemma SeedAverage(x: Assignment, y: Assignment, z: Assignment)
    requires x.averageScore == Some(87) && y.averageScore == None && z.averageScore == Some(92)
    ensures AverageScore([x, y, z]) == 90
  {
    ScoredOfThree(x, y, z);
    assert [x, z][1..] == [z] && [z][1..] == [];
    assert Sum([z], AverageOf) == 92;
    assert Sum([x, z], AverageOf) == 179;
    assert RoundDiv(179, 2) == 90;
  }

  // ---------------------------------------------------------------- per-assignment progress

  /**
   * The progress label: `Math.round(submitted / total * 100)`. With no students
   * it is `NaN` (0 / 0) or `Infinity` (a positive count over 0).
   */
  function Progress(submitted: nat, total: nat): (r: JsNumber)
    ensures total == 0 ==> (r == NaN <==> submitted == 0) && (r == PosInfinity <==> submitted > 0)
    ensures total > 0 ==> r.Finite? && 2 * total * r.value - total <= 200 * submitted < 2 * total * r.value + total
  {
    if total == 0 then (if submitted == 0 then NaN else PosInfinity)
    else Finite(RoundDiv(100 * submitted, total))
  }

  /** Everyone submitted: 100%. */
  lemma ProgressComplete(total: nat)
    requires total > 0
    ensures Progress(total, total) == Finite(100)
  {
    RoundDivUnique(100 * total, total, 100);
  }

  /** While no more students submitted than there are, progress is a percentage. */
  lemma ProgressIsPercentage(submitted: nat, total: nat)
    requires 0 < total && submitted <= total
    ensures 0 <= Progress(submitted, total).value <= 100
  {
    RoundDivBounds(100 * submitted, total, 0, 100);
  }

  /** More submissions never show less progress. */
  lemma ProgressMonotone(a: nat, b: nat, total: nat)
    requires 0 < total && a <= b
    ensures Progress(a, total).value <= Progress(b, total).value
  {
    RoundDivMonotone(100 * a, 100 * b, total);
  }

  // ---------------------------------------------------------------- classifiers

  /** `getStatusColor`: draft and unknown gray, active blue, completed green, graded purple. */
  function StatusColor(status: string): (c: string)
    ensures c == BlueBadge <==> status == "active"
    ensures c == GreenBadge <==> status == "completed"
    ensures c == PurpleBadge <==> status == "graded"
    ensures c == GrayBadge <==> status !in {"active", "completed", "graded"}
  {
    match status
    case "draft" => GrayBadge
    case "active" => BlueBadge
    case "completed" => GreenBadge
    case "graded" => PurpleBadge
    case _ => GrayBadge
  }

  /** The colours of the four declared statuses: only draft shares gray with unknown values. */
  lemma StatusColorsDistinct(a: AssignmentStatus, b: AssignmentStatus)
    ensures StatusColor(AssignmentStatusName(a)) == GrayBadge <==> a == Draft
    ensures a != b ==> StatusColor(AssignmentStatusName(a)) != StatusColor(AssignmentStatusName(b))
  {
  }

  /** `getSubmissionStatusColor`: submitted yellow, graded green, late red, anything else gray. */
  function SubmissionStatusColor(status: string): (c: string)
    ensures c == YellowBadge <==> status == "submitted"
    ensures c == GreenBadge <==> status == "graded"
    ensures c == RedBadge <==> status == "late"
    ensures c == GrayBadge <==> status !in {"submitted", "graded", "late"}
  {
    match status
    case "submitted" => YellowBadge
    case "graded" => GreenBadge
    case "late" => RedBadge
    case _ => GrayBadge
  }

  lemma SubmissionStatusColorsDistinct(a: SubmissionStatus, b: SubmissionStatus)
    ensures SubmissionStatusColor(SubmissionStatusName(a)) != GrayBadge
    ensures a != b ==> SubmissionStatusColor(SubmissionStatusName(a)) != SubmissionStatusColor(SubmissionStatusName(b))
  {
  }

  // ---------------------------------------------------------------- what the views render

  /** What one conditional spot of the view renders. */
  datatype Shown =
    | Nothing                              // React renders `undefined`/`false` as nothing
    | Dash                                 // the "-" placeholder
    | StrayText(text: string)              // a bare value React renders as text
    | Percent(value: int, color: string)   // "<value>%" in the score's colour

  /** The score cell of the submissions table: the coloured score when truthy, "-" otherwise (0 included). */
  function ScoreCell(score: Option<int>): (r: Shown)
    ensures r == Dash <==> !Truthy(score)
    ensures r != Dash ==> r == Percent(score.value, ScoreColor(score.value))
  {
    if Truthy(score) then Percent(score.value, ScoreColor(score.value)) else Dash
  }

  /**
   * The assignment card's "Average Score" row as written,
   * `{assignment.averageScore && (<row/>)}`: with a score of 0 the `&&`
   * yields the number 0, and React renders it as the text "0".
   */
  function AverageScoreRowAsWritten(averageScore: Option<int>): (r: Shown)
    ensures averageScore == None ==> r == Nothing
    ensures averageScore == Some(0) ==> r == StrayText("0")
    ensures Truthy(averageScore) ==> r == Percent(averageScore.value, ScoreColor(averageScore.value))
  {
    match averageScore
    case None => Nothing
    case Some(v) => if v == 0 then StrayText("0") else Percent(v, ScoreColor(v))
  }

  /** An assignment whose average score is 0 shows a lone "0" instead of no row. */
  lemma ZeroAverageShowsStrayZero()
    ensures AverageScoreRowAsWritten(Some(0)) != Nothing
    ensures AverageScoreRowAsWritten(Some(0)).StrayText?
  {
  }

  /** The row as evidently intended: shown exactly when the average score is truthy, and nothing otherwise. */
  function AverageScoreRow(averageScore: Option<int>): (r: Shown)
    ensures r == Nothing <==> !Truthy(averageScore)
    ensures r != Nothing ==> r == Percent(averageScore.value, ScoreColor(averageScore.value))
    ensures !r.StrayText?
  {
    if Truthy(averageScore) then Percent(averageScore.value, ScoreColor(averageScore.value)) else Nothing
  }

  /** The corrected row differs from the one as written only for a score of 0. */
  lemma AverageScoreRowFixesOnlyZero(averageScore: Option<int>)
    ensures AverageScoreRow(averageScore) != AverageScoreRowAsWritten(averageScore) <==> averageScore == Some(0)
  {
  }
}
