/** What actually reaches the attendance engine once the front end has
    chosen its query parameters and the controller has normalised or
    defaulted them. */
module FilterPipeline {
  import opened Common
  import opened Text
  import StudentClient
  import StudentController

  /** The year filter the engine receives for a drop-down value. */
  function EffectiveYear(year: Option<string>): Option<string>
  {
    StudentController.NormalizeFilter(StudentClient.DashboardParams(year, None).academicYear)
  }

  /** The semester filter the engine receives for a drop-down value. */
  function EffectiveSemester(sem: Option<string>): Option<string>
  {
    StudentController.NormalizeFilter(StudentClient.DashboardParams(None, sem).semester)
  }

  /** End to end, a year choice filters exactly when it is present, not
      empty, not the prompt and not "All" in any letter case; the engine
      then receives it unchanged. The client's case-sensitive test and the
      controller's case-insensitive one together drop every spelling of
      "All". */
  lemma {:induction false} EffectiveYearFilter(year: Option<string>)
    ensures EffectiveYear(year).None? <==>
              year.None? || year.value == "" || year.value == StudentClient.SelectYear
              || EqualsIgnoreCase(year.value, StudentController.All)
    ensures EffectiveYear(year).Some? ==> EffectiveYear(year) == year
  {
    if year.Some? && year.value == StudentClient.All {
      EqualsIgnoreCaseIsEquivalence(year.value, year.value, year.value);
    }
  }

  /** The same holds for the semester choice. */
  lemma {:induction false} EffectiveSemesterFilter(sem: Option<string>)
    ensures EffectiveSemester(sem).None? <==>
              sem.None? || sem.value == "" || sem.value == StudentClient.SelectSemester
              || EqualsIgnoreCase(sem.value, StudentController.All)
    ensures EffectiveSemester(sem).Some? ==> EffectiveSemester(sem) == sem
  {
    if sem.Some? && sem.value == StudentClient.All {
      EqualsIgnoreCaseIsEquivalence(sem.value, sem.value, sem.value);
    }
  }

  /** The history range the engine receives, given the front end's date
      strings, a date parser and today's day number. */
  function EffectiveRange(startDate: Option<string>, endDate: Option<string>, parse: string -> int, today: int): (int, int)
  {
    var q := StudentClient.AttendanceParams(None, startDate, endDate);
    var s := if q.startDate.Some? then Some(parse(q.startDate.value)) else None;
    var e := if q.endDate.Some? then Some(parse(q.endDate.value)) else None;
    (StudentController.DefaultStart(s, today), StudentController.DefaultEnd(e, today))
  }

  /** A blank or missing date is never sent, so the controller falls back
      to the trailing 30-day window; each bound is defaulted on its own. */
  lemma BlankDatesGetDefaultWindow(startDate: Option<string>, endDate: Option<string>, parse: string -> int, today: int)
    ensures (startDate.None? || startDate.value == "") ==>
              EffectiveRange(startDate, endDate, parse, today).0 == today - StudentController.DefaultWindowDays
    ensures (endDate.None? || endDate.value == "") ==> EffectiveRange(startDate, endDate, parse, today).1 == today
    ensures startDate.Some? && startDate.value != "" ==>
              EffectiveRange(startDate, endDate, parse, today).0 == parse(startDate.value)
    ensures endDate.Some? && endDate.value != "" ==>
              EffectiveRange(startDate, endDate, parse, today).1 == parse(endDate.value)
  {
  }

  /** A course id of 0 is falsy and never sent, so the history falls back
      to the date range instead of course 0. */
  lemma CourseZeroMeansDateRange(startDate: Option<string>, endDate: Option<string>)
    ensures StudentClient.AttendanceParams(Some(0), startDate, endDate).courseId.None?
  {
  }
}
