/** The request boundary of `StudentController`: normalisation of the
    dashboard filters and defaulting of the history date range before the
    student service is called. The signed-in student's id, which the
    controller looks up from the security context, is a parameter. */
module StudentController {
  import opened Common
  import opened Text
  import opened Entities
  import opened StudentService

  /** The sentinel meaning "no filter". */
  const All := "All"

  /** Days before today at which a missing history range starts. */
  const DefaultWindowDays := 30

  /** A filter of "All" in any letter case, or the empty string, means no
      filter; any other value, absent included, passes unchanged. */
  function NormalizeFilter(f: Option<string>): (r: Option<string>)
    ensures r.None? <==> f.None? || f.value == "" || EqualsIgnoreCase(f.value, All)
    ensures r.Some? ==> r == f
  {
    match f
    case None => None
    case Some(s) => if EqualsIgnoreCase(All, s) || s == "" then None else f
  }

  /** Normalising twice is normalising once. */
  lemma NormalizeIdempotent(f: Option<string>)
    ensures NormalizeFilter(NormalizeFilter(f)) == NormalizeFilter(f)
  {
  }

  /** Every spelling of "All" means no filter. */
  lemma AllInAnyCaseIsNoFilter()
    ensures NormalizeFilter(Some("All")) == None
    ensures NormalizeFilter(Some("all")) == None
    ensures NormalizeFilter(Some("ALL")) == None
    ensures NormalizeFilter(Some("")) == None
  {
    assert EqualsIgnoreCase(All, "all");
    assert EqualsIgnoreCase(All, "ALL");
  }

  /** A normalised "All" or "" filter retains the same courses as no
      filter at all. */
  lemma SentinelFiltersKeepEverything(candidates: set<Course>, year: string, semester: string)
    requires year == "" || EqualsIgnoreCase(year, All)
    requires semester == "" || EqualsIgnoreCase(semester, All)
    ensures Retained(candidates, NormalizeFilter(Some(year)), NormalizeFilter(Some(semester))) == candidates
  {
    NoFilterKeepsAll(candidates);
  }

  /** `getDashboard`: the dashboard of the student under the normalised
      filters. */
  method GetDashboard(
    students: map<int, Student>, studentId: int,
    classCourses: set<Course>, historyCourses: set<Course>, tally: Course -> Tally,
    academicYear: Option<string>, semester: Option<string>)
    returns (r: Result<Dashboard, Error>)
    ensures studentId !in students <==> r == Failure(StudentNotFound)
    ensures studentId in students ==>
              var candidates := CandidateCourses(students[studentId].classEntity, classCourses, historyCourses);
              var year := NormalizeFilter(academicYear);
              var sem := NormalizeFilter(semester);
              && (r == Failure(NullSemester) <==> SemesterFault(sem, candidates))
              && (r.Success? <==> !SemesterFault(sem, candidates))
              && (r.Success? ==> Summarises(r.value, students[studentId], Retained(candidates, year, sem), tally))
  {
    var year := NormalizeFilter(academicYear);
    var sem := NormalizeFilter(semester);
    r := GetStudentDashboard(students, studentId, classCourses, historyCourses, tally, year, sem);
  }

  /** The start of the history range: the given date, else 30 days before
      today. */
  function DefaultStart(startDate: Option<int>, today: int): (d: int)
    ensures startDate.Some? ==> d == startDate.value
    ensures startDate.None? ==> today - d == DefaultWindowDays
  {
    startDate.GetOr(today - DefaultWindowDays)
  }

  /** The end of the history range: the given date, else today. */
  function DefaultEnd(endDate: Option<int>, today: int): (d: int)
    ensures endDate.Some? ==> d == endDate.value
    ensures endDate.None? ==> d == today
  {
    endDate.GetOr(today)
  }

  /** `getAttendanceHistory`: the history with the missing range bounds
      filled in; the course id is forwarded unchanged. */
  function GetAttendanceHistory(
    students: map<int, Student>, studentId: int, courses: map<int, Course>,
    records: seq<Attendance>, courseId: Option<int>, startDate: Option<int>, endDate: Option<int>, today: int)
    : (r: Result<seq<AttendanceDetail>, Error>)
    ensures studentId !in students <==> r == Failure(StudentNotFound)
    ensures r == Failure(CourseNotFound) <==>
              studentId in students && courseId.Some? && courseId.value !in courses
    ensures studentId in students && (courseId.None? || courseId.value in courses) ==> r.Success?
    ensures r == GetStudentAttendance(students, studentId, courses, records, courseId,
                                      DefaultStart(startDate, today), DefaultEnd(endDate, today))
    ensures r.Success? && courseId.None? ==>
              forall d :: d in r.value ==>
                DefaultStart(startDate, today) <= d.date <= DefaultEnd(endDate, today)
  {
    var selected := SelectRecords(records, courseId, DefaultStart(startDate, today), DefaultEnd(endDate, today));
    assert forall i :: 0 <= i < |selected| ==> selected[i] in selected;
    GetStudentAttendance(students, studentId, courses, records, courseId,
                         DefaultStart(startDate, today), DefaultEnd(endDate, today))
  }

  /** With a course id the result does not depend on the dates or on the
      day the request is made: the defaults never take effect. */
  lemma CourseIdMakesDatesIrrelevant(
    students: map<int, Student>, studentId: int, courses: map<int, Course>, records: seq<Attendance>,
    courseId: int, s1: Option<int>, e1: Option<int>, today1: int, s2: Option<int>, e2: Option<int>, today2: int)
    ensures GetAttendanceHistory(students, studentId, courses, records, Some(courseId), s1, e1, today1)
         == GetAttendanceHistory(students, studentId, courses, records, Some(courseId), s2, e2, today2)
  {
    CourseIdIgnoresDates(records, courseId, DefaultStart(s1, today1), DefaultEnd(e1, today1),
                         DefaultStart(s2, today2), DefaultEnd(e2, today2));
  }

  /** With no course and no dates the history is the trailing 31 days,
      today included: a record dated within them is listed. */
  lemma DefaultWindowListsRecentRecords(
    students: map<int, Student>, studentId: int, courses: map<int, Course>, records: seq<Attendance>,
    today: int, a: Attendance)
    requires studentId in students
    requires a in records && today - DefaultWindowDays <= a.date <= today
    ensures GetAttendanceHistory(students, studentId, courses, records, None, None, None, today).Success?
    ensures Detail(a) in GetAttendanceHistory(students, studentId, courses, records, None, None, None, today).value
  {
    var selected := SelectRecords(records, None, today - DefaultWindowDays, today);
    assert a in selected;
    var i :| 0 <= i < |selected| && selected[i] == a;
    assert GetAttendanceHistory(students, studentId, courses, records, None, None, None, today).value[i] == Detail(a);
  }
}
