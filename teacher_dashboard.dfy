/**
 * The teacher dashboard's student list (`TeacherDashboard` page): students
 * filtered by class and searched by name. Its `getScoreColor` and
 * `getPriorityColor` are `Styles.ScoreColor` and `Styles.PriorityColor`.
 */
module TeacherDashboard {
  import opened Text
  import opened Seqs

  /** A dashboard student row; `classroom` is its `class` field. */
  datatype StudentRow = StudentRow(
    id: int,
    name: string,
    classroom: string,
    score: int,
    attendance: int,
    assignments: int,
    lastActive: string)

  /** The value of the class select that imposes no constraint. */
  const All := "all"

  /** The two conditions of `filteredStudents`: the class, and the search term against the name only. */
  predicate Matches(s: StudentRow, term: string, selectedClass: string) {
    && (selectedClass == All || s.classroom == selectedClass)
    && Includes(ToLower(s.name), ToLower(term))
  }

  /** `filteredStudents`: the students that match, in list order. */
  function FilterStudents(students: seq<StudentRow>, term: string, selectedClass: string): (r: seq<StudentRow>)
    ensures IsSubsequence(r, students)
    ensures forall i | 0 <= i < |r| :: Matches(r[i], term, selectedClass)
    ensures forall i | 0 <= i < |students| && Matches(students[i], term, selectedClass) :: students[i] in r
  {
    Filter(students, s => Matches(s, term, selectedClass))
  }

  /**
   * A student is listed exactly when it is in the list, the class select is
   * "all" or its class, and the lower-cased term is a substring of its
   * lower-cased name.
   */
  lemma FilterStudentsIff(students: seq<StudentRow>, term: string, selectedClass: string, s: StudentRow)
    ensures s in FilterStudents(students, term, selectedClass) <==>
      && s in students
      && (selectedClass == All || s.classroom == selectedClass)
      && IsSubstring(ToLower(term), ToLower(s.name))
  {
    FilterMembership(students, s => Matches(s, term, selectedClass), s);
    IncludesIsSubstring(ToLower(s.name), ToLower(term));
  }

  /** With an empty search box and the class select on "all", every student is listed, in order. */
  lemma UnfilteredIsIdentity(students: seq<StudentRow>)
    ensures FilterStudents(students, "", All) == students
  {
    forall i | 0 <= i < |students| ensures Matches(students[i], "", All) {
      EmptyIsIncluded(ToLower(students[i].name));
    }
    FilterKeepsAll(students, s => Matches(s, "", All));
  }

  /** Choosing a class only narrows the list shown for "all". */
  lemma ClassNarrows(students: seq<StudentRow>, term: string, selectedClass: string, s: StudentRow)
    requires s in FilterStudents(students, term, selectedClass)
    ensures s in FilterStudents(students, term, All)
    ensures selectedClass != All ==> s.classroom == selectedClass
  {
    FilterStudentsIff(students, term, selectedClass, s);
    FilterStudentsIff(students, term, All, s);
  }

  /** The term is not trimmed: one that starts with a space misses every name without a space. */
  lemma UntrimmedTermMisses(s: StudentRow, term: string, selectedClass: string)
    requires term != [] && term[0] == ' ' && ' ' !in s.name
    ensures !Matches(s, term, selectedClass)
  {
    NoSpaceAfterLower(s.name);
    assert ToLower(term)[0] == ' ';
    FirstCharMissing(ToLower(s.name), ToLower(term));
  }
}
