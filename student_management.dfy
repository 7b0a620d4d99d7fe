/**
 * The teacher's student roster (`StudentManagement` component): a searchable,
 * filterable list of students, a form that adds a student, and the summary
 * cards (total, active, average score, average attendance).
 */
module StudentManagement {
  import opened Text
  import opened Seqs
  import opened Numbers
  import opened Styles

  /** `Student.status`: a closed union of three values. */
  datatype Status = Active | Inactive | Suspended

  function StatusName(s: Status): string {
    match s
    case Active => "active"
    case Inactive => "inactive"
    case Suspended => "suspended"
  }

  /** The `Student` record; `classroom` is the record's `class` field. */
  datatype Student = Student(
    id: int,
    name: string,
    email: string,
    classroom: string,
    rollNumber: string,
    score: int,
    attendance: int,
    assignments: int,
    lastActive: string,
    status: Status,
    parentContact: string,
    joinDate: string)

  /** The "Add New Student" form (`newStudent`). */
  datatype StudentForm = StudentForm(
    name: string,
    email: string,
    rollNumber: string,
    classroom: string,
    parentContact: string)

  const EmptyForm := StudentForm("", "", "", "", "")

  /** The value of the class and status selects that imposes no constraint. */
  const All := "all"

  /** The five students the roster starts with. */
  const SeedStudents: seq<Student> := [
    Student(1, "Ravi Singh", "ravi.singh@example.com", "Class 5A", "5A001", 92, 95, 8, "2 hours ago", Active, "+91 98765 43210", "2024-01-01"),
    Student(2, "Priya Kaur", "priya.kaur@example.com", "Class 5A", "5A002", 88, 98, 7, "1 day ago", Active, "+91 98765 43211", "2024-01-01"),
    Student(3, "Amit Kumar", "amit.kumar@example.com", "Class 6B", "6B001", 76, 90, 6, "3 hours ago", Active, "+91 98765 43212", "2024-01-02"),
    Student(4, "Simran Bhatia", "simran.bhatia@example.com", "Class 6B", "6B002", 94, 100, 9, "1 hour ago", Active, "+91 98765 43213", "2024-01-02"),
    Student(5, "Rajesh Verma", "rajesh.verma@example.com", "Class 7A", "7A001", 85, 92, 8, "4 hours ago", Inactive, "+91 98765 43214", "2024-01-03")
  ]

  // ---------------------------------------------------------------- filtering

  /** `matchesSearch`: the lower-cased term occurs in the lower-cased name, email or roll number. */
  predicate MatchesSearch(s: Student, term: string) {
    var t := ToLower(term);
    Includes(ToLower(s.name), t) || Includes(ToLower(s.email), t) || Includes(ToLower(s.rollNumber), t)
  }

  /** The three conditions of `filteredStudents`, ANDed. */
  predicate Matches(s: Student, term: string, selectedClass: string, selectedStatus: string) {
    && MatchesSearch(s, term)
    && (selectedClass == All || s.classroom == selectedClass)
    && (selectedStatus == All || StatusName(s.status) == selectedStatus)
  }

  /** `filteredStudents`: the students that match, in roster order. */
  function FilterStudents(students: seq<Student>, term: string, selectedClass: string, selectedStatus: string): (r: seq<Student>)
    ensures IsSubsequence(r, students)
    ensures forall i | 0 <= i < |r| :: Matches(r[i], term, selectedClass, selectedStatus)
    ensures forall i | 0 <= i < |students| && Matches(students[i], term, selectedClass, selectedStatus) :: students[i] in r
  {
    Filter(students, s => Matches(s, term, selectedClass, selectedStatus))
  }

  /**
   * A student is listed exactly when it is on the roster, the lower-cased term
   * is a substring of its lower-cased name, email or roll number, and each of
   * the class and status selects is "all" or equal to its class or status.
   */
  lemma FilterStudentsIff(students: seq<Student>, term: string, selectedClass: string, selectedStatus: string, s: Student)
    ensures s in FilterStudents(students, term, selectedClass, selectedStatus) <==>
      && s in students
      && (|| IsSubstring(ToLower(term), ToLower(s.name))
          || IsSubstring(ToLower(term), ToLower(s.email))
          || IsSubstring(ToLower(term), ToLower(s.rollNumber)))
      && (selectedClass == All || s.classroom == selectedClass)
      && (selectedStatus == All || StatusName(s.status) == selectedStatus)
  {
    FilterMembership(students, s => Matches(s, term, selectedClass, selectedStatus), s);
    IncludesIsSubstring(ToLower(s.name), ToLower(term));
    IncludesIsSubstring(ToLower(s.email), ToLower(term));
    IncludesIsSubstring(ToLower(s.rollNumber), ToLower(term));
  }

  /** With an empty search box and both selects on "all", the whole roster is listed, in order. */
  lemma UnfilteredIsIdentity(students: seq<Student>)
    ensures FilterStudents(students, "", All, All) == students
  {
    forall i | 0 <= i < |students| ensures Matches(students[i], "", All, All) {
      EmptyIsIncluded(ToLower(students[i].name));
    }
    FilterKeepsAll(students, s => Matches(s, "", All, All));
  }

  /** The term is not trimmed: one that starts with a space misses a student with no space in name, email or roll number. */
  lemma UntrimmedTermMisses(s: Student, term: string)
    requires term != [] && term[0] == ' '
    requires ' ' !in s.name && ' ' !in s.email && ' ' !in s.rollNumber
    ensures !MatchesSearch(s, term)
  {
    assert ToLower(term)[0] == ' ';
    NoSpaceAfterLower(s.name);
    NoSpaceAfterLower(s.email);
    NoSpaceAfterLower(s.rollNumber);
    FirstCharMissing(ToLower(s.name), ToLower(term));
    FirstCharMissing(ToLower(s.email), ToLower(term));
    FirstCharMissing(ToLower(s.rollNumber), ToLower(term));
  }

  // ---------------------------------------------------------------- classifiers

  /** `getStatusColor`: active green, inactive yellow, suspended red, anything else gray. */
  function StatusColor(status: string): (c: string)
    ensures c == GreenBadge <==> status == "active"
    ensures c == YellowBadge <==> status == "inactive"
    ensures c == RedBadge <==> status == "suspended"
    ensures c == GrayBadge <==> status !in {"active", "inactive", "suspended"}
  {
    match status
    case "active" => GreenBadge
    case "inactive" => YellowBadge
    case "suspended" => RedBadge
    case _ => GrayBadge
  }

  /** Each of the three statuses a record can carry gets its own colour, never the gray default. */
  lemma StatusColorsDistinct(a: Status, b: Status)
    ensures StatusColor(StatusName(a)) != GrayBadge
    ensures a != b ==> StatusColor(StatusName(a)) != StatusColor(StatusName(b))
  {
  }

  // ---------------------------------------------------------------- adding a student

  /** The largest id on a non-empty roster: `Math.max(...students.map(s => s.id))`. */
  function MaxId(students: seq<Student>): (m: int)
    requires students != []
    ensures exists i | 0 <= i < |students| :: students[i].id == m
    ensures forall i | 0 <= i < |students| :: students[i].id <= m
  {
    if |students| == 1 then students[0].id
    else
      var rest := MaxId(students[1..]);
      assert forall i | 1 <= i < |students| :: students[i] == students[1..][i - 1];
      if students[0].id >= rest then students[0].id else rest
  }

  /** The id a new student gets: 1 on an empty roster, otherwise one more than the largest id. */
  function NextId(students: seq<Student>): (id: int)
    ensures students == [] ==> id == 1
    ensures students != [] ==> exists i | 0 <= i < |students| :: students[i].id == id - 1
    ensures forall i | 0 <= i < |students| :: students[i].id < id
  {
    if students == [] then 1 else MaxId(students) + 1
  }

  /** The check `handleAddStudent` makes first: name, email, roll number and class are filled in (the parent contact may be empty). */
  predicate FormComplete(f: StudentForm): (b: bool)
    ensures b <==> "" !in [f.name, f.email, f.rollNumber, f.classroom]
  {
    f.name != "" && f.email != "" && f.rollNumber != "" && f.classroom != ""
  }

  /** `String.prototype.slice(0, n)`: the first `n` characters, or all of a shorter string. */
  function Prefix(s: string, n: nat): (r: string)
    ensures |r| <= n && r <= s
    ensures |s| >= n ==> |r| == n
    ensures |s| < n ==> r == s
  {
    if |s| <= n then s else s[..n]
  }

  /**
   * The record `handleAddStudent` builds from the form: the given id, the form's
   * fields, zero score, attendance and assignments, "just now", active, and the
   * date part (first ten characters) of the ISO timestamp `now`.
   */
  function Enrol(f: StudentForm, id: int, now: string): (s: Student)
    ensures s.id == id && s.status == Active && s.score == 0 && s.attendance == 0 && s.assignments == 0
    ensures s.name == f.name && s.email == f.email && s.rollNumber == f.rollNumber && s.classroom == f.classroom
    ensures s.parentContact == f.parentContact && s.lastActive == "just now"
    ensures s.joinDate <= now && |s.joinDate| == if |now| < 10 then |now| else 10
  {
    Student(id, f.name, f.email, f.classroom, f.rollNumber, 0, 0, 0, "just now", Active, f.parentContact, Prefix(now, 10))
  }

  /** No two students share an id. */
  predicate UniqueIds(students: seq<Student>) {
    forall i, j | 0 <= i < j < |students| :: students[i].id != students[j].id
  }

  /** Prepending a student with the next id keeps the ids unique. */
  lemma {:induction false} EnrolKeepsIdsUnique(students: seq<Student>, f: StudentForm, now: string)
    requires UniqueIds(students)
    ensures UniqueIds([Enrol(f, NextId(students), now)] + students)
  {
    var r := [Enrol(f, NextId(students), now)] + students;
    forall i, j | 0 <= i < j < |r| ensures r[i].id != r[j].id {
      assert r[j] == students[j - 1];
      if i > 0 {
        assert r[i] == students[i - 1];
      }
    }
  }

  lemma SeedIdsUnique()
    ensures UniqueIds(SeedStudents)
  {
  }

  /** The roster's state: the `students` list and the add form. */
  class Roster {
    var students: seq<Student>
    var form: StudentForm

    ghost predicate Valid()
      reads this
    {
      UniqueIds(students)
    }

    constructor ()
      ensures students == SeedStudents && form == EmptyForm
      ensures Valid()
    {
      students, form := SeedStudents, EmptyForm;
      SeedIdsUnique();
    }

    /** The form inputs' `onChange` handlers: replace the form's contents. */
    method EditForm(f: StudentForm)
      requires Valid()
      modifies this
      ensures Valid()
      ensures form == f && students == old(students)
    {
      form := f;
    }

    /**
     * `handleAddStudent`: with an incomplete form nothing changes; otherwise
     * the new student is put in front of the roster, everyone else follows
     * in the same order, and the form is cleared.
     */
    method AddStudent(now: string)
      requires Valid()
      modifies this
      ensures Valid()
      ensures !FormComplete(old(form)) ==> students == old(students) && form == old(form)
      ensures FormComplete(old(form)) ==>
        students == [Enrol(old(form), NextId(old(students)), now)] + old(students) && form == EmptyForm
    {
      if !FormComplete(form) {
        return;
      }
      var next := Enrol(form, NextId(students), now);
      EnrolKeepsIdsUnique(students, form, now);
      students := [next] + students;
      form := EmptyForm;
    }
  }

  /**
   * What a successful add puts in front: a record with an id no student had,
   * the form's fields, zero score, attendance and assignments, status active;
   * the rest of the roster is the old roster.
   */
  lemma EnrolIsFresh(students: seq<Student>, f: StudentForm, now: string)
    requires FormComplete(f)
    ensures var s := Enrol(f, NextId(students), now);
      && (forall i | 0 <= i < |students| :: students[i].id != s.id)
      && s.name == f.name && s.email == f.email && s.rollNumber == f.rollNumber && s.classroom == f.classroom
      && s.parentContact == f.parentContact && s.lastActive == "just now" && s.joinDate == Prefix(now, 10)
      && s.score == 0 && s.attendance == 0 && s.assignments == 0 && s.status == Active
      && ([s] + students)[1..] == students
  {
  }

  // ---------------------------------------------------------------- summary cards

  /** The "Active Students" card: `students.filter(s => s.status === 'active').length`. */
  function ActiveCount(students: seq<Student>): (n: nat)
    ensures n <= |students|
  {
    Count(students, (s: Student) => s.status == Active)
  }

  /** A successful add adds one active student. */
  lemma ActiveCountAfterEnrol(students: seq<Student>, f: StudentForm, id: int, now: string)
    ensures ActiveCount([Enrol(f, id, now)] + students) == ActiveCount(students) + 1
  {
    var r := [Enrol(f, id, now)] + students;
    assert r[1..] == students;
    CountCons(r, (s: Student) => s.status == Active);
  }

  /** The "Avg. Score" card: `Math.round(sum of scores / students.length)`, `NaN` on an empty roster. */
  function AverageScore(students: seq<Student>): (r: JsNumber)
    ensures r == NaN <==> students == []
    ensures r.Finite? ==> 2 * |students| * r.value - |students| <= 2 * Sum(students, (s: Student) => s.score) < 2 * |students| * r.value + |students|
  {
    RoundedMean(students, (s: Student) => s.score)
  }

  /** The "Avg. Attendance" card, in the same way over attendance. */
  function AverageAttendance(students: seq<Student>): (r: JsNumber)
    ensures r == NaN <==> students == []
    ensures r.Finite? ==> 2 * |students| * r.value - |students| <= 2 * Sum(students, (s: Student) => s.attendance) < 2 * |students| * r.value + |students|
  {
    RoundedMean(students, (s: Student) => s.attendance)
  }

  /** Percentages in `[0, 100]` average to a percentage in `[0, 100]`. */
  lemma AveragesArePercentages(students: seq<Student>)
    requires students != []
    requires forall i | 0 <= i < |students| :: 0 <= students[i].score <= 100 && 0 <= students[i].attendance <= 100
    ensures 0 <= AverageScore(students).value <= 100
    ensures 0 <= AverageAttendance(students).value <= 100
  {
    RoundedMeanBounds(students, (s: Student) => s.score, 0, 100);
    RoundedMeanBounds(students, (s: Student) => s.attendance, 0, 100);
  }
}
