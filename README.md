# EduConnect (Nabha Learn) front end: a Dafny model of its logic

EduConnect is a React front end for rural schools. Almost all of it is markup
over literal mock data. Its logic sits in six views, and this project models
that logic and proves what it does:

- **The sample lesson's translation quiz** (`Lesson` page). The learner types a
  greeting. The answer is lower-cased and trimmed, and it is accepted if it
  contains one of four accepted phrases. Every check counts an attempt. A
  wrong answer gets a generic hint twice, and from the third try on the hint
  gives the answer ("Sat Sri Akal") away. Enter and the button check only a
  non-blank answer, and reset clears everything. The quiz is a class,
  `LessonPage.Quiz`, with the page's three state cells as fields.
- **The student roster** (`StudentManagement`). It has:
  - a case-insensitive search over name, email and roll number;
  - class and status selects whose value "all" imposes no constraint;
  - an add form that checks the required fields, gives the new student the
    largest id plus one (1 on an empty roster), puts the student first and
    clears the form;
  - summary cards: the active count and rounded averages.
  The roster and the form are a class, `StudentManagement.Roster`.
- **The teacher dashboard's list** (`TeacherDashboard`): a class filter and
  a search over the name only. The page computes this list but never renders
  it: its Students tab shows the roster component instead, and nothing calls
  the setters of the class and search state. So the page always computes the
  list for an empty term and class "all", which is every student in order
  (`TeacherDashboard.UnfilteredIsIdentity`). Its own copy of `getScoreColor`
  is likewise never called.
- **Assignments** (`AssignmentManagement`):
  - the Active and Graded counts;
  - the average over the truthy average scores, falling back to 0;
  - the rounded submission progress;
  - the status and score colours;
  - the rule that a score is shown only when truthy.
- **Lesson plans** (`LessonPlanning`): counts per status and the status colour.
- **Messages** (`CommunicationCenter`): the unread and scheduled counts, the
  total number of recipients, and the priority and status colours.

The JavaScript built-ins this logic rests on are modelled once, in modules of
their own:

- `Text`: `trim` (ECMAScript white space and line terminators), `toLowerCase`
  (ASCII) and `includes`. `includes` is proved equal to "is a contiguous
  substring".
- `Seqs`: `filter`, `filter(...).length` and a summing `reduce`, with `filter`
  proved order-preserving.
- `Numbers`: `Math.round(a / b)`, computed exactly on integers as
  `(2a + b) / (2b)`. A division by zero gives `NaN` or `Infinity`, as in
  JavaScript, so an empty list's mean is `NaN` rather than a precondition.
- `Styles`: the Tailwind class names, plus `getScoreColor` and
  `getPriorityColor`, which three and two components declare word for word.

Neither search box trims its term (see `UntrimmedTermMisses`). The roster's
averages divide by `students.length` with no fallback, so they are `NaN` on an
empty roster. Only the assignments' average falls back to 0.

## Model

| member | source | states |
|---|---|---|
| Text.Trim | src/pages/Lesson.tsx:18 | `trim` strips ECMAScript white space from both ends; the result starts and ends with non-white space, and is empty exactly when the input is all white space |
| Text.TrimIsStripped | src/pages/Lesson.tsx:18 | the trimmed string is a contiguous slice of the input with only white space before it and after it |
| Text.ToLower | src/pages/Lesson.tsx:18-20 | `toLowerCase` keeps the length and lower-cases each character (ASCII letters) |
| Text.Includes | src/pages/Lesson.tsx:20 | `includes` searches from the left, and a match it reports is a real occurrence of the pattern |
| Text.IncludesIsSubstring | src/pages/Lesson.tsx:20 | `s.includes(p)` holds exactly when `p` occurs as a contiguous piece of `s` |
| Text.TrimToLowerCommute | src/pages/Lesson.tsx:18 | trimming and lower-casing commute, so the order in `answer.toLowerCase().trim()` does not matter |
| Text.FirstCharMissing | src/pages/Lesson.tsx:20 | a pattern whose first character is absent from `s` is not included in `s` |
| Text.IncludesMiddle | src/pages/Lesson.tsx:20 | a string includes whatever stands in its middle |
| Text.TrimUnchanged | src/pages/Lesson.tsx:18 | a string with no white space at either end is its own trim |
| Text.ToLowerUnchanged | src/pages/Lesson.tsx:18 | a string without upper-case ASCII letters is its own lower-case form |
| Text.ToLowerIdempotent | src/pages/Lesson.tsx:20 | lower-casing twice is lower-casing once |
| Text.ToLowerAppend | src/pages/Lesson.tsx:18 | lower-casing distributes over concatenation |
| Text.EmptyIsIncluded | src/components/StudentManagement.tsx:119 | every string includes the empty search term |
| Text.NothingInEmpty | src/pages/Lesson.tsx:20 | the empty string includes no non-empty phrase |
| Text.NoSpaceAfterLower | src/pages/TeacherDashboard.tsx:68 | lower-casing creates no space |
| Seqs.Filter | src/components/StudentManagement.tsx:118 | `filter` returns an order-preserving subsequence holding exactly the elements that pass |
| Seqs.FilterMembership | src/components/StudentManagement.tsx:118 | an element is in the filtered list iff it is in the list and passes |
| Seqs.FilterAppend | src/components/StudentManagement.tsx:118 | filtering distributes over concatenation |
| Seqs.FilterKeepsAll | src/components/StudentManagement.tsx:118 | a filter that passes everything returns the list unchanged |
| Seqs.Count | src/components/LessonPlanning.tsx:233 | `filter(...).length` never exceeds the list's length |
| Seqs.CountAppend | src/components/LessonPlanning.tsx:233 | `filter(...).length` adds up over concatenation |
| Seqs.CountCons | src/components/LessonPlanning.tsx:233 | the count of a list is the head's contribution (0 or 1) plus the tail's count |
| Seqs.Sum | src/components/CommunicationCenter.tsx:332 | the summing `reduce` with start value 0 is 0 on an empty list and the one summand on a one-element list |
| Seqs.SumAppend | src/components/CommunicationCenter.tsx:332 | the summing `reduce` adds up over concatenation |
| Seqs.SumBounds | src/components/StudentManagement.tsx:305 | summands in `[lo, hi]` sum to a value in `[lo * n, hi * n]` |
| Seqs.SumNonNegative | src/components/CommunicationCenter.tsx:332 | non-negative summands have a non-negative sum |
| Numbers.RoundDiv | src/components/StudentManagement.tsx:305 | `Math.round(num / den)` for `den > 0` is the integer within half of the quotient, ties rounding up |
| Numbers.RoundDivUnique | src/components/StudentManagement.tsx:305 | that integer is unique |
| Numbers.RoundDivBounds | src/components/AssignmentManagement.tsx:360 | a quotient between `lo` and `hi` rounds into `[lo, hi]` |
| Numbers.RoundDivMonotone | src/components/AssignmentManagement.tsx:360 | a larger numerator never rounds lower |
| Numbers.RoundedMean | src/components/StudentManagement.tsx:305 | `Math.round(sum / length)` is `NaN` exactly for an empty list and otherwise the rounded mean |
| Numbers.RoundedMeanBounds | src/components/StudentManagement.tsx:305 | values in `[lo, hi]` have a rounded mean in `[lo, hi]` |
| Numbers.OrZero | src/components/AssignmentManagement.tsx:296 | the `or 0` fallback turns `NaN` into 0 and keeps a finite value |
| Styles.ScoreColor | src/components/StudentManagement.tsx:137-142 | green for 90 and up, blue for [80, 90), yellow for [70, 80), red below 70, each boundary belonging to the upper band (the same function is declared word for word at src/pages/TeacherDashboard.tsx lines 72-77 and src/components/AssignmentManagement.tsx lines 154-159) |
| Styles.ScoreColorMonotone | src/components/StudentManagement.tsx:137-142 | a higher score never gets a worse colour |
| Styles.PriorityColor | src/pages/TeacherDashboard.tsx:79-86 | high red, medium yellow, low green, any other string gray (the same function is declared word for word at src/components/CommunicationCenter.tsx lines 118-125) |
| Styles.PriorityColorsDistinct | src/components/CommunicationCenter.tsx:118-125 | the three declared priorities get three distinct colours, none of them gray |
| LessonPage.Normalize | src/pages/Lesson.tsx:18 | `answer.toLowerCase().trim()` is no longer than the answer |
| LessonPage.NormalizeIsLowerTrimmed | src/pages/Lesson.tsx:18 | the normalised answer is already lower-case, and it is empty exactly when the answer is all white space |
| LessonPage.IsCorrect | src/pages/Lesson.tsx:19-21 | `some`/`includes` over the accepted phrases; an accepted answer is non-empty once normalised |
| LessonPage.IsCorrectIff | src/pages/Lesson.tsx:18-21 | an answer is correct iff, lower-cased and trimmed, it contains some lower-cased accepted phrase as a substring |
| LessonPage.BlankNeverCorrect | src/pages/Lesson.tsx:15-21 | an answer that is all white space is never correct |
| LessonPage.Evaluate | src/pages/Lesson.tsx:25-36 | success with the fixed message iff correct; otherwise error, with the revealing hint iff the attempt count before the check is at least 2 and the retry hint iff it is below 2 |
| LessonPage.RevealNamesAnswer | src/pages/Lesson.tsx:34 | the revealing hint contains "Sat Sri Akal" |
| LessonPage.RetryHidesAnswer | src/pages/Lesson.tsx:35 | the retry hint does not contain "Sat Sri Akal" |
| LessonPage.RevealsAnswerIff | src/pages/Lesson.tsx:30-36 | the feedback names "Sat Sri Akal" iff the answer is wrong and at least 2 attempts came before |
| LessonPage.NamasteIsAccepted | src/pages/Lesson.tsx:15-21 | any text containing "namaste" contains an accepted phrase |
| LessonPage.ContainsNamasteIsCorrect | src/pages/Lesson.tsx:18-21 | an answer whose lower-cased, trimmed form contains "namaste" is correct |
| LessonPage.LowerNamastePlease | src/pages/Lesson.tsx:18 | "Namaste please" lower-cases to "namaste please" |
| LessonPage.NormalizeNamastePlease | src/pages/Lesson.tsx:18 | "Namaste please" normalises to "namaste please" |
| LessonPage.NamastePleaseIsCorrect | src/pages/Lesson.tsx:18-21 | "Namaste please" is accepted |
| LessonPage.HiThereIsWrong | src/pages/Lesson.tsx:18-21 | "hi there" is not accepted |
| LessonPage.Quiz.constructor | src/pages/Lesson.tsx:8-13 | the quiz starts with an empty answer, no feedback and 0 attempts |
| LessonPage.Quiz.SetAnswer | src/pages/Lesson.tsx:88 | typing replaces the answer and leaves feedback and attempts alone |
| LessonPage.Quiz.CheckAnswer | src/pages/Lesson.tsx:17-38 | each check adds exactly one attempt, right or wrong, and shows the feedback for the answer and the attempt count before the check; the answer is kept |
| LessonPage.Quiz.ResetLesson | src/pages/Lesson.tsx:40-44 | from any state: empty answer, no feedback, 0 attempts |
| LessonPage.Quiz.HandleKeyPress | src/pages/Lesson.tsx:46-50 | Enter on an answer that is non-blank once trimmed checks it; any other key or a blank answer changes nothing |
| LessonPage.Quiz.PressCheckButton | src/pages/Lesson.tsx:95-98 | the button checks a non-blank answer and is disabled (no change) on a blank one |
| LessonPage.WrongAnswerSession | src/pages/Lesson.tsx:17-50 | a wrong answer gets the retry hint on the first two checks and the revealing hint on the third |
| LessonPage.RightAnswerSession | src/pages/Lesson.tsx:17-50 | after two resets and an ignored Enter on the blank answer, any right answer succeeds on attempt 1 |
| LessonPage.RightAnswerAfterReset | src/pages/Lesson.tsx:40-50 | reset is idempotent; Enter on the blank answer does nothing; "Namaste please" then succeeds on attempt 1 |
| StudentManagement.FilterStudents | src/components/StudentManagement.tsx:118-126 | the filtered roster is an order-preserving subsequence of the roster, holding every student that matches and only those |
| StudentManagement.FilterStudentsIff | src/components/StudentManagement.tsx:119-125 | a student is listed iff the lower-cased term is a substring of its lower-cased name, email or roll number, the class select is "all" or its class, and the status select is "all" or its status |
| StudentManagement.UnfilteredIsIdentity | src/components/StudentManagement.tsx:118-126 | an empty term with both selects on "all" lists the whole roster unchanged |
| StudentManagement.UntrimmedTermMisses | src/components/StudentManagement.tsx:119-121 | the term is not trimmed: a leading space misses students with no space in name, email and roll number |
| StudentManagement.StatusColor | src/components/StudentManagement.tsx:128-135 | active green, inactive yellow, suspended red, any other string gray |
| StudentManagement.StatusColorsDistinct | src/components/StudentManagement.tsx:128-135 | the three statuses get three distinct colours, none of them gray |
| StudentManagement.MaxId | src/components/StudentManagement.tsx:149 | `Math.max` over the ids is an id on the roster and at least every id |
| StudentManagement.NextId | src/components/StudentManagement.tsx:149 | the new id is 1 on an empty roster, otherwise the largest id plus one, and exceeds every existing id |
| StudentManagement.Prefix | src/components/StudentManagement.tsx:160 | `slice(0, n)` is the first `n` characters when the string has that many, and the whole string when it is shorter |
| StudentManagement.EnrolKeepsIdsUnique | src/components/StudentManagement.tsx:149-162 | prepending a student with the next id keeps ids unique |
| StudentManagement.SeedIdsUnique | src/components/StudentManagement.tsx:43-114 | the initial roster's ids are unique |
| StudentManagement.FormComplete | src/components/StudentManagement.tsx:145-147 | the form may be added exactly when none of name, email, roll number and class is empty; the parent contact is not required |
| StudentManagement.Enrol | src/components/StudentManagement.tsx:148-161 | the record built from the form: the given id, the form's five fields, score, attendance and assignments 0, "just now", status active, and a join date that is the first ten characters of the timestamp |
| StudentManagement.EnrolIsFresh | src/components/StudentManagement.tsx:149-162 | the new record has an id no student has, all five form fields (parent contact included), score, attendance and assignments 0, "just now", status active and the date part of the timestamp; the old roster follows it unchanged |
| StudentManagement.Roster.constructor | src/components/StudentManagement.tsx:35-114 | the roster starts with the five seed students and an empty form |
| StudentManagement.Roster.EditForm | src/components/StudentManagement.tsx:31-41 | editing the form changes only the form |
| StudentManagement.Roster.AddStudent | src/components/StudentManagement.tsx:144-165 | with name, email, roll number or class empty nothing changes; otherwise the new student is prepended to the unchanged roster, the form is cleared, and ids stay unique |
| StudentManagement.ActiveCount | src/components/StudentManagement.tsx:293 | the active count is at most the total |
| StudentManagement.ActiveCountAfterEnrol | src/components/StudentManagement.tsx:155-162 | a successful add raises the active count by one |
| StudentManagement.AverageScore | src/components/StudentManagement.tsx:305 | `NaN` exactly on an empty roster, otherwise the mean score rounded to the nearest integer |
| StudentManagement.AverageAttendance | src/components/StudentManagement.tsx:318 | `NaN` exactly on an empty roster, otherwise the mean attendance rounded to the nearest integer |
| StudentManagement.AveragesArePercentages | src/components/StudentManagement.tsx:305-318 | percentages average to a percentage |
| TeacherDashboard.FilterStudents | src/pages/TeacherDashboard.tsx:66-70 | the filtered list is an order-preserving subsequence holding every matching student and only those |
| TeacherDashboard.FilterStudentsIff | src/pages/TeacherDashboard.tsx:66-70 | a student is listed iff the class select is "all" or its class, and the lower-cased term is a substring of its lower-cased name (no other field) |
| TeacherDashboard.UnfilteredIsIdentity | src/pages/TeacherDashboard.tsx:66-70 | an empty term with class "all" lists every student in order |
| TeacherDashboard.ClassNarrows | src/pages/TeacherDashboard.tsx:67 | choosing a class only narrows the "all" list, to students of that class |
| TeacherDashboard.UntrimmedTermMisses | src/pages/TeacherDashboard.tsx:68 | the term is not trimmed: a leading space misses every name without a space |
| AssignmentManagement.ValueOrZero | src/components/AssignmentManagement.tsx:296 | the average score with its `or 0` fallback: the score when truthy, 0 otherwise |
| AssignmentManagement.ActiveCount | src/components/AssignmentManagement.tsx:270 | the Active count is at most the total |
| AssignmentManagement.GradedCount | src/components/AssignmentManagement.tsx:283 | the Graded count is at most the total |
| AssignmentManagement.ActiveAndGradedWithinTotal | src/components/AssignmentManagement.tsx:258-283 | Active plus Graded is at most the total number of assignments |
| AssignmentManagement.Scored | src/components/AssignmentManagement.tsx:296 | keeps exactly the assignments whose average score is truthy, each taken from the input, in the input's order |
| AssignmentManagement.AverageScore | src/components/AssignmentManagement.tsx:296 | 0 when no average score is truthy, otherwise the rounded mean of the truthy ones only |
| AssignmentManagement.AverageIgnoresUnscored | src/components/AssignmentManagement.tsx:296 | an assignment with an absent or zero average score does not change the card, wherever it stands |
| AssignmentManagement.AverageScoreIsPercentage | src/components/AssignmentManagement.tsx:296 | percentages average to a percentage |
| AssignmentManagement.ScoredOfThree | src/components/AssignmentManagement.tsx:51-99 | scored, unscored, scored keeps the first and the last |
| AssignmentManagement.SeedAverage | src/components/AssignmentManagement.tsx:51-99 | scores 87, none and 92 show 90 (89.5 rounds up) |
| AssignmentManagement.Progress | src/components/AssignmentManagement.tsx:360 | `Math.round(submitted / total * 100)` is the nearest integer to the percentage; 0/0 is `NaN`, k/0 is `Infinity` |
| AssignmentManagement.ProgressComplete | src/components/AssignmentManagement.tsx:360 | everyone submitted shows 100 |
| AssignmentManagement.ProgressIsPercentage | src/components/AssignmentManagement.tsx:360 | with submitted at most total, progress is in [0, 100] |
| AssignmentManagement.ProgressMonotone | src/components/AssignmentManagement.tsx:360 | more submissions never show less progress |
| AssignmentManagement.StatusColor | src/components/AssignmentManagement.tsx:135-143 | active blue, completed green, graded purple; draft and any other string gray |
| AssignmentManagement.StatusColorsDistinct | src/components/AssignmentManagement.tsx:135-143 | of the four statuses only draft is gray, and distinct statuses get distinct colours |
| AssignmentManagement.SubmissionStatusColor | src/components/AssignmentManagement.tsx:145-152 | submitted yellow, graded green, late red, any other string gray |
| AssignmentManagement.SubmissionStatusColorsDistinct | src/components/AssignmentManagement.tsx:145-152 | the three submission statuses get three distinct colours, none of them gray |
| AssignmentManagement.ScoreCell | src/components/AssignmentManagement.tsx:439-445 | "-" exactly when the score is absent or 0; otherwise the score in its colour |
| AssignmentManagement.AverageScoreRowAsWritten | src/components/AssignmentManagement.tsx:369-376 | the card's row as written: nothing when absent, a stray "0" for 0, the coloured score otherwise |
| AssignmentManagement.ZeroAverageShowsStrayZero | src/components/AssignmentManagement.tsx:369 | an average score of 0 renders a lone "0" |
| AssignmentManagement.AverageScoreRow | src/components/AssignmentManagement.tsx:369-376 | the row shown exactly when the average score is truthy, nothing otherwise |
| AssignmentManagement.AverageScoreRowFixesOnlyZero | src/components/AssignmentManagement.tsx:369 | the corrected row differs from the written one only for a score of 0 |
| LessonPlanning.CountStatus | src/components/LessonPlanning.tsx:233-259 | each status card is at most the total |
| LessonPlanning.CountStatusCons | src/components/LessonPlanning.tsx:233-259 | a card counts the first lesson iff it has that status |
| LessonPlanning.StatusCountsSumToTotal | src/components/LessonPlanning.tsx:25 | the Scheduled, Completed and Drafts cards add up to the total number of lessons |
| LessonPlanning.CountStatusAppend | src/components/LessonPlanning.tsx:233-259 | each card adds up over concatenation |
| LessonPlanning.StatusColor | src/components/LessonPlanning.tsx:109-116 | scheduled blue, completed green, draft and any other string gray |
| LessonPlanning.StatusColorOfDraft | src/components/LessonPlanning.tsx:109-116 | a draft is coloured exactly like an unknown status, and scheduled and completed differ |
| CommunicationCenter.UnreadCount | src/components/CommunicationCenter.tsx:306 | the unread count is at most the number of messages |
| CommunicationCenter.UnreadCountIsTotalIff | src/components/CommunicationCenter.tsx:306 | the unread count equals the total iff every message is unread |
| CommunicationCenter.ScheduledCount | src/components/CommunicationCenter.tsx:319 | the scheduled count is at most the number of announcements |
| CommunicationCenter.ScheduledCountIsZeroIff | src/components/CommunicationCenter.tsx:319 | the scheduled count is 0 iff no announcement is scheduled |
| CommunicationCenter.TotalRecipients | src/components/CommunicationCenter.tsx:332 | the total is 0 for no announcements |
| CommunicationCenter.TotalRecipientsAppend | src/components/CommunicationCenter.tsx:332 | the total adds up over concatenation |
| CommunicationCenter.TotalRecipientsCoversEach | src/components/CommunicationCenter.tsx:332 | with non-negative counts the total is at least each announcement's count |
| CommunicationCenter.StatusColor | src/components/CommunicationCenter.tsx:127-137 | scheduled orange, sent and unread blue, read green, replied purple, draft and any other string gray |
| CommunicationCenter.MessageStatusColorsDistinct | src/components/CommunicationCenter.tsx:127-137 | the three message statuses get three distinct colours, none of them gray |
| CommunicationCenter.AnnouncementStatusColors | src/components/CommunicationCenter.tsx:127-137 | of the announcement statuses only draft is gray, and sent and scheduled differ |

## Findings

| source | as written | input that shows it | evidently intended | confidence | as-written member | corrected member |
|---|---|---|---|---|---|---|
| src/components/AssignmentManagement.tsx:369 | `{assignment.averageScore && (<row/>)}` yields the number 0 when the average score is 0, and React renders 0 as the text "0" | an assignment with `averageScore: 0` | no average-score row and no stray text, as the submissions table does with its ternary at lines 439-445 | medium, not executed | AssignmentManagement.AverageScoreRowAsWritten | AssignmentManagement.AverageScoreRow |

## Left out

- AssignmentManagement.Progress: computed on exact integers, not on IEEE doubles. The code divides and then multiplies by 100, and that product can land just below a half: 29 of 200 submitted is 14.499999999999998 in doubles, so 14, where the model says 15. The three averages are a single correctly rounded division of integer sums below 2^52, which cannot cross a half, so for them the model and JavaScript agree.
- Text.ToLower: lower-cases ASCII letters only. JavaScript also maps other scripts' capitals. The accepted phrases are ASCII or Gurmukhi, and Gurmukhi has no case.
- AssignmentManagement.Progress: counts are natural numbers. The code does not check that submitted is at most total (nor excludes negative counts), and negative counts are not modelled.
- JavaScript numbers in records (ids, scores, counts) are modelled as integers. `NaN` or fractional values stored in a record are not modelled.
- StudentManagement.Roster.AddStudent: the date comes from the clock (`new Date().toISOString()`), which is the parameter `now` here. Closing the add dialog (`setIsAddDialogOpen(false)`) is not modelled.
- The form's per-field `onChange` handlers are modelled by one method, StudentManagement.Roster.EditForm, that replaces the whole form.
- LessonPage.Quiz: each check is modelled as seeing the state committed by the previous one. Two checks inside one React render would both read the same stale `attempts`; React event batching and re-rendering are not modelled.
- Dialog and tab state (`isAddDialogOpen`, `isCreateDialogOpen`, `selectedAssignment`, `activeTab`), the feedback banner and the "Attempts" indicator are presentation and are not modelled.
- The JSX-returning helpers `getAudienceIcon` and `getResourceIcon` are not modelled: they return icons.
- The unrounded widths of progress bars (`Progress` value, the read-rate bar) are not modelled; only the rounded labels are.
- The "Total" cards show the list length (`students.length`, `assignments.length`, `lessons.length`, `announcements.length`). No member is needed for them.
- The mock data of the dashboard, lesson plans, announcements and messages is not modelled as constants; the roster's seed is, and the assignments' seed scores appear in AssignmentManagement.SeedAverage.
- The service worker, navigation bar (timer and random connectivity toggle), theme toggle, login page (local storage) and the static pages are outside this model: they are I/O, timing, randomness or markup.
