/** The student attendance engine of `StudentServiceImpl`: the dashboard
    (course union, academic-year and semester filters, per-course and overall
    percentages), the attendance history query and leave-request creation.
    Repository queries are inputs: `classCourses` is what
    `findByClassEntity(currentClass)` returns, `historyCourses` what
    `findCoursesByStudentId` returns, `tally(c)` the pair of counts
    `countTotalByStudentAndCourse` / `countPresentByStudentAndCourse`, and
    `records` the student's attendance rows in repository order. */
module StudentService {
  import opened Common
  import opened Text
  import opened Percent
  import opened Entities
  import Seqs

  /** Session and presence counts of one student in one course. */
  datatype Tally = Tally(total: nat, present: nat)

  /** One row of the dashboard: a course with its counts and its
      percentage in tenths. */
  datatype CourseAttendance = CourseAttendance(
    courseId: int,
    courseName: string,
    courseCode: string,
    total: nat,
    present: nat,
    percentTenths: nat)

  /** The dashboard response. */
  datatype Dashboard = Dashboard(
    studentName: string,
    rollNumber: string,
    semester: Option<string>,
    academicYear: Option<string>,
    courseAttendances: seq<CourseAttendance>,
    overallTenths: nat)

  /** The failures the service raises. `NullSemester` is the
      NullPointerException of `dbSem.equalsIgnoreCase(semester)` when a
      course's class has no semester label. */
  datatype Error = StudentNotFound | CourseNotFound | NullSemester

  /** The label shown when the student has no current class. */
  const NotAvailable := "N/A"

  /** The label returned when an attendance row has no status. */
  const UnknownStatus := "UNKNOWN"

  // ---------------------------------------------------------------------
  // Dashboard: candidate courses and filters
  // ---------------------------------------------------------------------

  /** The courses the dashboard considers: those of the current class, if
      there is one, together with every course the student has attendance
      history for, each once. */
  function CandidateCourses(current: Option<ClassEntity>, classCourses: set<Course>, historyCourses: set<Course>): (r: set<Course>)
    ensures forall c :: c in r <==> c in historyCourses || (current.Some? && c in classCourses)
    ensures current.None? ==> r == historyCourses
    ensures historyCourses <= r
  {
    (if current.Some? then classCourses else {}) + historyCourses
  }

  /** The academic-year filter: no filter keeps every course; otherwise a
      course is kept only if its class has an academic year equal to the
      filter up to case. */
  predicate YearMatch(academicYear: Option<string>, c: Course)
    ensures academicYear.None? ==> YearMatch(academicYear, c)
    ensures academicYear.Some? ==>
              (YearMatch(academicYear, c) <==>
                 && c.classEntity.Some?
                 && c.classEntity.value.academicYear.Some?
                 && Lower(academicYear.value) == Lower(c.classEntity.value.academicYear.value))
  {
    || academicYear.None?
    || (&& c.classEntity.Some?
        && c.classEntity.value.academicYear.Some?
        && EqualsIgnoreCase(academicYear.value, c.classEntity.value.academicYear.value))
  }

  /** The semester filter. No filter keeps every course; a course without a
      class never matches; otherwise the course matches when the digits of
      its class's semester label equal the digits of the filter, or failing
      that when label and filter are equal up to case. A missing label whose
      digit comparison fails makes the fallback comparison fail with
      `NullSemester`. */
  function SemesterMatch(semester: Option<string>, c: Course): (r: Result<bool, Error>)
    ensures semester.None? ==> r == Success(true)
    ensures semester.Some? && c.classEntity.None? ==> r == Success(false)
    ensures r.Failure? <==>
              && semester.Some? && c.classEntity.Some?
              && c.classEntity.value.semester.None?
              && Digits(semester.value) != ""
    ensures r.Failure? ==> r.error == NullSemester
    ensures semester.Some? && c.classEntity.Some? && c.classEntity.value.semester.None? && Digits(semester.value) == "" ==>
              r == Success(true)
    ensures semester.Some? && c.classEntity.Some? && c.classEntity.value.semester.Some? ==>
              var stored := c.classEntity.value.semester.value;
              && (Digits(stored) == Digits(semester.value) ==> r == Success(true))
              && (Digits(stored) != Digits(semester.value) ==> r == Success(EqualsIgnoreCase(stored, semester.value)))
  {
    if semester.None? then Success(true)
    else if c.classEntity.None? then Success(false)
    else
      var dbSem := c.classEntity.value.semester;
      var dbSemNum := if dbSem.Some? then Digits(dbSem.value) else "";
      var reqSemNum := Digits(semester.value);
      if dbSemNum == reqSemNum then Success(true)
      else if dbSem.None? then Failure(NullSemester)
      else Success(EqualsIgnoreCase(dbSem.value, semester.value))
  }

  /** Some candidate course makes the semester filter throw. */
  predicate SemesterFault(semester: Option<string>, candidates: set<Course>)
  {
    exists c :: c in candidates && SemesterMatch(semester, c).Failure?
  }

  /** The candidate courses that pass both filters. Filtering only ever
      removes courses, and as soon as either filter is set every course
      without a class is removed. */
  function Retained(candidates: set<Course>, academicYear: Option<string>, semester: Option<string>): (r: set<Course>)
    ensures r <= candidates
    ensures academicYear.Some? || semester.Some? ==> forall c :: c in r ==> c.classEntity.Some?
  {
    set c | c in candidates && YearMatch(academicYear, c) && SemesterMatch(semester, c) == Success(true)
  }

  // ---------------------------------------------------------------------
  // Dashboard: statistics
  // ---------------------------------------------------------------------

  /** The dashboard row of a course with the given counts. */
  function Stat(c: Course, t: Tally): (s: CourseAttendance)
    ensures s.courseId == c.id && s.courseName == c.courseName && s.courseCode == c.courseCode
    ensures s.total == t.total && s.present == t.present
    ensures s.percentTenths == PercentTenths(t.present, t.total)
    ensures t.total == 0 ==> s.percentTenths == 0
    ensures t.present <= t.total ==> s.percentTenths <= 1000
  {
    PercentInRange(t.present, t.total);
    CourseAttendance(c.id, c.courseName, c.courseCode, t.total, t.present, PercentTenths(t.present, t.total))
  }

  function Add(a: Tally, b: Tally): Tally
  {
    Tally(a.total + b.total, a.present + b.present)
  }

  /** The counts of a set of courses summed, independent of any order in
      which the courses are visited. */
  ghost function SetTally(courses: set<Course>, tally: Course -> Tally): Tally
    decreases |courses|
  {
    if courses == {} then Tally(0, 0)
    else
      var c :| c in courses;
      Add(tally(c), SetTally(courses - {c}, tally))
  }

  /** The sum over a set can be split at any element, so the order of
      visiting is irrelevant. */
  lemma {:induction false} SetTallyRemove(courses: set<Course>, tally: Course -> Tally, x: Course)
    requires x in courses
    ensures SetTally(courses, tally) == Add(tally(x), SetTally(courses - {x}, tally))
    decreases |courses|
  {
    var y :| y in courses && SetTally(courses, tally) == Add(tally(y), SetTally(courses - {y}, tally));
    if y != x {
      var rest := courses - {x} - {y};
      SetTallyRemove(courses - {y}, tally, x);
      SetTallyRemove(courses - {x}, tally, y);
      assert courses - {y} - {x} == rest;
      var s := SetTally(rest, tally);
      assert SetTally(courses, tally) == Add(tally(y), Add(tally(x), s));
      assert SetTally(courses - {x}, tally) == Add(tally(y), s);
    }
  }

  /** The overall percentage of a set of courses: from the summed counts,
      not from the mean of the per-course percentages. */
  ghost function OverallTenths(courses: set<Course>, tally: Course -> Tally): nat
  {
    var t := SetTally(courses, tally);
    PercentTenths(t.present, t.total)
  }

  /** `order` lists every course of `courses`, each exactly once. */
  ghost predicate Enumerates(order: seq<Course>, courses: set<Course>)
  {
    && (forall c :: c in order <==> c in courses)
    && (forall i, j :: 0 <= i < j < |order| ==> order[i] != order[j])
  }

  /** `stats` is the row of each course of `order`, in that order. */
  predicate RowsOf(stats: seq<CourseAttendance>, order: seq<Course>, tally: Course -> Tally)
  {
    |stats| == |order| && forall i :: 0 <= i < |order| ==> stats[i] == Stat(order[i], tally(order[i]))
  }

  /** The statistics loop of `getStudentDashboard`: visits the retained
      courses in an unspecified order (a `HashSet`'s), emits one row per
      course and accumulates the session and presence counts. `order` is
      the order of the visit. */
  method Aggregate(retained: set<Course>, tally: Course -> Tally)
    returns (stats: seq<CourseAttendance>, sum: Tally, ghost order: seq<Course>)
    ensures Enumerates(order, retained)
    ensures RowsOf(stats, order, tally)
    ensures |stats| == |retained|
    ensures sum == SetTally(retained, tally)
  {
    stats := [];
    sum := Tally(0, 0);
    order := [];
    var rest := retained;
    while rest != {}
      invariant rest <= retained
      invariant |stats| + |rest| == |retained|
      invariant forall c :: c in order <==> c in retained && c !in rest
      invariant forall i, j :: 0 <= i < j < |order| ==> order[i] != order[j]
      invariant RowsOf(stats, order, tally)
      invariant Add(sum, SetTally(rest, tally)) == SetTally(retained, tally)
      decreases |rest|
    {
      var c :| c in rest;
      SetTallyRemove(rest, tally, c);
      assert c !in order;
      stats := stats + [Stat(c, tally(c))];
      order := order + [c];
      sum := Add(sum, tally(c));
      rest := rest - {c};
    }
  }

  /** `d` is the dashboard of `student` over the retained courses. */
  ghost predicate Summarises(d: Dashboard, student: Student, retained: set<Course>, tally: Course -> Tally)
  {
    && d.studentName == student.name
    && d.rollNumber == student.rollNumber
    && (student.classEntity.None? ==> d.semester == Some(NotAvailable) && d.academicYear == Some(NotAvailable))
    && (student.classEntity.Some? ==>
          d.semester == student.classEntity.value.semester && d.academicYear == student.classEntity.value.academicYear)
    && |d.courseAttendances| == |retained|
    && (exists order :: Enumerates(order, retained) && RowsOf(d.courseAttendances, order, tally))
    && d.overallTenths == OverallTenths(retained, tally)
  }

  /** `getStudentDashboard`. Fails when the student does not exist, and when
      some candidate course trips the semester comparison; otherwise
      summarises the retained courses. The labels are the current class's
      own, whatever the filters. */
  method GetStudentDashboard(
    students: map<int, Student>, studentId: int,
    classCourses: set<Course>, historyCourses: set<Course>, tally: Course -> Tally,
    academicYear: Option<string>, semester: Option<string>)
    returns (r: Result<Dashboard, Error>)
    ensures studentId !in students <==> r == Failure(StudentNotFound)
    ensures studentId in students ==>
              var candidates := CandidateCourses(students[studentId].classEntity, classCourses, historyCourses);
              && (r == Failure(NullSemester) <==> SemesterFault(semester, candidates))
              && (r.Success? <==> !SemesterFault(semester, candidates))
              && (r.Success? ==>
                    Summarises(r.value, students[studentId], Retained(candidates, academicYear, semester), tally))
  {
    if studentId !in students {
      return Failure(StudentNotFound);
    }
    var student := students[studentId];
    var current := student.classEntity;
    var candidates := CandidateCourses(current, classCourses, historyCourses);
    if exists c :: c in candidates && SemesterMatch(semester, c).Failure? {
      return Failure(NullSemester);
    }
    var retained := Retained(candidates, academicYear, semester);
    var stats, sum;
    ghost var order;
    stats, sum, order := Aggregate(retained, tally);
    var semesterLabel := if current.Some? then current.value.semester else Some(NotAvailable);
    var yearLabel := if current.Some? then current.value.academicYear else Some(NotAvailable);
    r := Success(Dashboard(student.name, student.rollNumber, semesterLabel, yearLabel,
                           stats, PercentTenths(sum.present, sum.total)));
  }

  /** `calculateOverallAttendance`: the overall percentage of the dashboard
      under the same filters, failing exactly when the dashboard does. */
  method CalculateOverallAttendance(
    students: map<int, Student>, studentId: int,
    classCourses: set<Course>, historyCourses: set<Course>, tally: Course -> Tally,
    academicYear: Option<string>, semester: Option<string>)
    returns (r: Result<nat, Error>)
    ensures studentId !in students <==> r == Failure(StudentNotFound)
    ensures studentId in students ==>
              var candidates := CandidateCourses(students[studentId].classEntity, classCourses, historyCourses);
              && (r == Failure(NullSemester) <==> SemesterFault(semester, candidates))
              && (r.Success? <==> !SemesterFault(semester, candidates))
              && (r.Success? ==> r.value == OverallTenths(Retained(candidates, academicYear, semester), tally))
  {
    var d := GetStudentDashboard(students, studentId, classCourses, historyCourses, tally, academicYear, semester);
    r := if d.Success? then Success(d.value.overallTenths) else Failure(d.error);
  }

  // ---------------------------------------------------------------------
  // Dashboard: properties
  // ---------------------------------------------------------------------

  /** Without filters every candidate course is retained and no failure is
      possible. */
  lemma NoFilterKeepsAll(candidates: set<Course>)
    ensures Retained(candidates, None, None) == candidates
    ensures !SemesterFault(None, candidates)
  {
  }

  /** A year filter keeps only courses that have a class whose academic
      year equals the filter up to case; courses without a class are
      dropped. */
  lemma YearFilterNeedsClass(candidates: set<Course>, year: string, semester: Option<string>, c: Course)
    requires c in Retained(candidates, Some(year), semester)
    ensures c.classEntity.Some? && c.classEntity.value.academicYear.Some?
    ensures EqualsIgnoreCase(year, c.classEntity.value.academicYear.value)
  {
  }

  /** The two filters act independently: applying both retains exactly
      the courses each one retains on its own. */
  lemma FiltersAreIndependent(candidates: set<Course>, year: Option<string>, semester: Option<string>)
    ensures Retained(candidates, year, semester) == Retained(candidates, year, None) * Retained(candidates, None, semester)
  {
  }

  function Labelled(semester: string): Course
  {
    Course(1, "Course", "C1", Some(ClassEntity(Some("2024-25"), Some(semester))))
  }

  /** "Semester 5" matches the filter "5": both digit strings are "5". */
  lemma SemesterFiveMatchesFive()
    ensures SemesterMatch(Some("5"), Labelled("Semester 5")) == Success(true)
  {
    DigitsOfLabel("Semester ", "5", "");
    assert "Semester " + "5" + "" == "Semester 5";
    DigitsOfLabel("", "5", "");
    assert "" + "5" + "" == "5";
  }

  /** Labels carrying the same number match whatever text surrounds it,
      so "Semester 5", "Sem 5" and "5th Semester" all match one another. */
  lemma SameNumberMatches(p1: string, s1: string, p2: string, s2: string, number: string, c: Course)
    requires forall i :: 0 <= i < |p1| ==> !IsDigit(p1[i])
    requires forall i :: 0 <= i < |s1| ==> !IsDigit(s1[i])
    requires forall i :: 0 <= i < |p2| ==> !IsDigit(p2[i])
    requires forall i :: 0 <= i < |s2| ==> !IsDigit(s2[i])
    requires forall i :: 0 <= i < |number| ==> IsDigit(number[i])
    requires c.classEntity.Some? && c.classEntity.value.semester == Some(p1 + number + s1)
    ensures SemesterMatch(Some(p2 + number + s2), c) == Success(true)
  {
    DigitsOfLabel(p1, number, s1);
    DigitsOfLabel(p2, number, s2);
  }

  /** A label whose digits differ from a numeric filter never matches it:
      the case-insensitive fallback cannot rescue it, because a string equal
      up to case to a string of digits is that string. So "Semester 15"
      misses "5" and "S1" misses "15". */
  lemma DifferentNumberMisses(stored: string, filter: string, c: Course)
    requires forall i :: 0 <= i < |filter| ==> IsDigit(filter[i])
    requires Digits(stored) != filter
    requires c.classEntity.Some? && c.classEntity.value.semester == Some(stored)
    ensures SemesterMatch(Some(filter), c) == Success(false)
  {
    DigitsOfDigitString(filter);
    if EqualsIgnoreCase(stored, filter) {
      FoldedDigitsAreExact(stored, filter);
    }
  }

  /** Two labels without any digit always match, whatever their text. */
  lemma DigitlessLabelsMatch(filter: string, stored: string, c: Course)
    requires c.classEntity.Some? && c.classEntity.value.semester == Some(stored)
    requires forall i :: 0 <= i < |filter| ==> !IsDigit(filter[i])
    requires forall i :: 0 <= i < |stored| ==> !IsDigit(stored[i])
    ensures SemesterMatch(Some(filter), c) == Success(true)
  {
    DigitsEmptyIffNoDigit(filter);
    DigitsEmptyIffNoDigit(stored);
  }

  /** The semester comparison does not depend on which side is the stored
      label and which the filter. */
  lemma SemesterMatchSymmetric(a: string, b: string, c1: Course, c2: Course)
    requires c1.classEntity.Some? && c1.classEntity.value.semester == Some(b)
    requires c2.classEntity.Some? && c2.classEntity.value.semester == Some(a)
    ensures SemesterMatch(Some(a), c1) == SemesterMatch(Some(b), c2)
  {
    EqualsIgnoreCaseIsEquivalence(a, b, a);
  }

  /** The summed counts stay consistent when every course's do: at most as
      many presences as sessions. */
  lemma {:induction false} SetTallyConsistent(courses: set<Course>, tally: Course -> Tally)
    requires forall c :: c in courses ==> tally(c).present <= tally(c).total
    ensures SetTally(courses, tally).present <= SetTally(courses, tally).total
    decreases |courses|
  {
    if courses != {} {
      var c :| c in courses;
      SetTallyRemove(courses, tally, c);
      SetTallyConsistent(courses - {c}, tally);
    }
  }

  /** Courses without any session sum to no session at all. */
  lemma {:induction false} SetTallyNoSessions(courses: set<Course>, tally: Course -> Tally)
    requires forall c :: c in courses ==> tally(c).total == 0
    ensures SetTally(courses, tally).total == 0
    decreases |courses|
  {
    if courses != {} {
      var c :| c in courses;
      SetTallyRemove(courses, tally, c);
      SetTallyNoSessions(courses - {c}, tally);
    }
  }

  /** The overall percentage lies in [0.0, 100.0] when every course has at
      most as many presences as sessions, and is 0.0 when nothing is
      retained or no retained course has had a session. */
  lemma OverallInRange(courses: set<Course>, tally: Course -> Tally)
    requires forall c :: c in courses ==> tally(c).present <= tally(c).total
    ensures OverallTenths(courses, tally) <= 1000
    ensures courses == {} ==> OverallTenths(courses, tally) == 0
    ensures (forall c :: c in courses ==> tally(c).total == 0) ==> OverallTenths(courses, tally) == 0
  {
    SetTallyConsistent(courses, tally);
    var t := SetTally(courses, tally);
    PercentInRange(t.present, t.total);
    if forall c :: c in courses ==> tally(c).total == 0 {
      SetTallyNoSessions(courses, tally);
    }
  }

  /** The per-course percentages of the example below: 9 of 10 is 90.0,
      1 of 100 is 1.0, and the pooled 10 of 110 is 9.1. */
  lemma ExamplePercentages()
    ensures PercentTenths(9, 10) == 900
    ensures PercentTenths(1, 100) == 10
    ensures PercentTenths(10, 110) == 91
  {
    RoundingIsUnique(9, 10, 900);
    RoundingIsUnique(1, 100, 10);
    RoundingIsUnique(10, 110, 91);
  }

  /** The counts of two distinct courses are their sum. */
  lemma SetTallyPair(a: Course, b: Course, tally: Course -> Tally)
    requires a != b
    ensures SetTally({a, b}, tally) == Add(tally(a), tally(b))
  {
    SetTallyRemove({a, b}, tally, a);
    assert {a, b} - {a} == {b};
    SetTallyRemove({b}, tally, b);
    assert {b} - {b} == {};
  }

  /** The overall percentage weights courses by their session counts: with
      9 of 10 sessions in one course and 1 of 100 in another it is 9.1 (10 of
      110), not 45.5, the mean of 90.0 and 1.0. */
  lemma OverallIsNotMeanOfCourses(a: Course, b: Course, tally: Course -> Tally)
    requires a != b
    requires tally(a) == Tally(10, 9) && tally(b) == Tally(100, 1)
    ensures Stat(a, tally(a)).percentTenths == 900
    ensures Stat(b, tally(b)).percentTenths == 10
    ensures OverallTenths({a, b}, tally) == 91
  {
    SetTallyPair(a, b, tally);
    ExamplePercentages();
  }

  /** A student with no current class and no attendance history has an
      empty dashboard at 0.0 percent, whatever the filters. */
  lemma EmptyStudentHasEmptyDashboard(year: Option<string>, semester: Option<string>, classCourses: set<Course>, tally: Course -> Tally)
    ensures CandidateCourses(None, classCourses, {}) == {}
    ensures Retained({}, year, semester) == {}
    ensures !SemesterFault(semester, {})
    ensures OverallTenths({}, tally) == 0
  {
  }

  // ---------------------------------------------------------------------
  // Attendance history
  // ---------------------------------------------------------------------

  /** One row of the attendance history. */
  datatype AttendanceDetail = AttendanceDetail(
    id: int,
    date: int,
    status: string,
    courseName: string,
    courseCode: string,
    startTime: string,
    endTime: string)

  /** The history row of an attendance record; a missing status reads
      "UNKNOWN". */
  function Detail(a: Attendance): (d: AttendanceDetail)
    ensures d.id == a.id && d.date == a.date
    ensures d.courseName == a.course.courseName && d.courseCode == a.course.courseCode
    ensures d.startTime == a.startTime && d.endTime == a.endTime
    ensures a.status.None? ==> d.status == UnknownStatus
    ensures a.status.Some? ==> d.status == a.status.value
  {
    AttendanceDetail(a.id, a.date, a.status.GetOr(UnknownStatus), a.course.courseName,
                     a.course.courseCode, a.startTime, a.endTime)
  }

  function Details(records: seq<Attendance>): (ds: seq<AttendanceDetail>)
    ensures |ds| == |records|
    ensures forall i :: 0 <= i < |records| ==> ds[i] == Detail(records[i])
  {
    seq(|records|, i requires 0 <= i < |records| => Detail(records[i]))
  }

  function ForCourse(courseId: int): Attendance -> bool
  {
    (a: Attendance) => a.course.id == courseId
  }

  function InRange(startDate: int, endDate: int): Attendance -> bool
  {
    (a: Attendance) => startDate <= a.date <= endDate
  }

  /** The rows the history shows: with a course id, every row of that
      course whatever its date; without one, the rows dated within the
      inclusive range. Repository order is kept. */
  function SelectRecords(records: seq<Attendance>, courseId: Option<int>, startDate: int, endDate: int): (r: seq<Attendance>)
    ensures courseId.Some? ==> forall a :: a in r <==> a in records && a.course.id == courseId.value
    ensures courseId.None? ==> forall a :: a in r <==> a in records && startDate <= a.date <= endDate
    ensures forall a :: a in r ==> multiset(r)[a] == multiset(records)[a]
  {
    if courseId.Some? then Seqs.Filter(ForCourse(courseId.value), records)
    else Seqs.Filter(InRange(startDate, endDate), records)
  }

  /** `getStudentAttendance`. Fails when the student, or a given course,
      does not exist; otherwise lists the selected rows in order. */
  function GetStudentAttendance(
    students: map<int, Student>, studentId: int, courses: map<int, Course>,
    records: seq<Attendance>, courseId: Option<int>, startDate: int, endDate: int)
    : (r: Result<seq<AttendanceDetail>, Error>)
    ensures studentId !in students <==> r == Failure(StudentNotFound)
    ensures r == Failure(CourseNotFound) <==>
              studentId in students && courseId.Some? && courseId.value !in courses
    ensures studentId in students && (courseId.None? || courseId.value in courses) ==> r.Success?
    ensures r.Success? ==>
              var selected := SelectRecords(records, courseId, startDate, endDate);
              |r.value| == |selected| && forall i :: 0 <= i < |selected| ==> r.value[i] == Detail(selected[i])
  {
    if studentId !in students then Failure(StudentNotFound)
    else if courseId.Some? && courseId.value !in courses then Failure(CourseNotFound)
    else Success(Details(SelectRecords(records, courseId, startDate, endDate)))
  }

  /** A course id takes precedence: the date range has no effect. */
  lemma CourseIdIgnoresDates(records: seq<Attendance>, courseId: int, s1: int, e1: int, s2: int, e2: int)
    ensures SelectRecords(records, Some(courseId), s1, e1) == SelectRecords(records, Some(courseId), s2, e2)
  {
  }

  /** The history keeps the repository order: selecting from two batches of
      rows is selecting from each and concatenating. */
  lemma SelectRecordsConcat(a: seq<Attendance>, b: seq<Attendance>, courseId: Option<int>, startDate: int, endDate: int)
    ensures SelectRecords(a + b, courseId, startDate, endDate)
         == SelectRecords(a, courseId, startDate, endDate) + SelectRecords(b, courseId, startDate, endDate)
  {
    if courseId.Some? {
      Seqs.FilterConcat(ForCourse(courseId.value), a, b);
    } else {
      Seqs.FilterConcat(InRange(startDate, endDate), a, b);
    }
  }

  // ---------------------------------------------------------------------
  // Leave requests
  // ---------------------------------------------------------------------

  /** The leave-request form as submitted. */
  datatype LeaveRequestForm = LeaveRequestForm(
    startDate: Option<int>, endDate: Option<int>, reason: Option<string>, kind: Option<string>)

  /** A leave request as stored, before the database assigns its id. */
  datatype LeaveRequest = LeaveRequest(
    student: Student,
    startDate: Option<int>, endDate: Option<int>, reason: Option<string>, kind: Option<string>,
    status: LeaveStatus)

  /** `createLeaveRequest`: a new request of an existing student, copying
      the form and always starting PENDING. */
  function CreateLeaveRequest(students: map<int, Student>, studentId: int, form: LeaveRequestForm): (r: Result<LeaveRequest, Error>)
    ensures studentId !in students <==> r == Failure(StudentNotFound)
    ensures r.Success? ==>
              && r.value.student == students[studentId]
              && r.value.status == PENDING
              && r.value.startDate == form.startDate && r.value.endDate == form.endDate
              && r.value.reason == form.reason && r.value.kind == form.kind
  {
    if studentId !in students then Failure(StudentNotFound)
    else Success(LeaveRequest(students[studentId], form.startDate, form.endDate, form.reason, form.kind, PENDING))
  }
}
