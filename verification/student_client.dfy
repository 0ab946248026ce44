/** The query-parameter selection of the front end's `StudentService`:
    which filter values are put on the dashboard and history requests.
    The HTTP call itself is not modelled. TypeScript's `undefined` is `None`;
    a string is truthy unless empty and a number unless zero. */
module StudentClient {
  import opened Common

  /** The prompt shown in the year drop-down before a choice is made. */
  const SelectYear := "Select Year"
  /** The prompt shown in the semester drop-down. */
  const SelectSemester := "Select Semester"
  /** The drop-down choice meaning every value. */
  const All := "All"

  /** Query parameters of the dashboard request. */
  datatype DashboardQuery = DashboardQuery(academicYear: Option<string>, semester: Option<string>)

  /** Query parameters of the history request. */
  datatype AttendanceQuery = AttendanceQuery(courseId: Option<int>, startDate: Option<string>, endDate: Option<string>)

  /** A drop-down value is sent when it is a real choice: present, not
      empty, not the prompt and not exactly "All" (the comparison is case
      sensitive, so "all" is sent). A sent value is sent unchanged. */
  function ChoiceParam(value: Option<string>, prompt: string): (r: Option<string>)
    ensures r.Some? <==> value.Some? && value.value != "" && value.value != prompt && value.value != All
    ensures r.Some? ==> r == value
  {
    if value.Some? && value.value != "" && value.value != prompt && value.value != All then value else None
  }

  /** `getStudentDashboard`: the parameters put on the dashboard request. */
  function DashboardParams(year: Option<string>, sem: Option<string>): (q: DashboardQuery)
    ensures q.academicYear.Some? <==>
              year.Some? && year.value != "" && year.value != SelectYear && year.value != All
    ensures q.semester.Some? <==>
              sem.Some? && sem.value != "" && sem.value != SelectSemester && sem.value != All
    ensures q.academicYear.Some? ==> q.academicYear == year
    ensures q.semester.Some? ==> q.semester == sem
  {
    DashboardQuery(ChoiceParam(year, SelectYear), ChoiceParam(sem, SelectSemester))
  }

  /** A string parameter is sent when present and not empty. */
  function TextParam(value: Option<string>): (r: Option<string>)
    ensures r.Some? <==> value.Some? && value.value != ""
    ensures r.Some? ==> r == value
  {
    if value.Some? && value.value != "" then value else None
  }

  /** `getStudentAttendance`: the course id is sent when it is truthy (so 0
      is dropped), each date independently when it is not empty. */
  function AttendanceParams(courseId: Option<int>, startDate: Option<string>, endDate: Option<string>): (q: AttendanceQuery)
    ensures q.courseId.Some? <==> courseId.Some? && courseId.value != 0
    ensures q.courseId.Some? ==> q.courseId == courseId
    ensures q.startDate == TextParam(startDate) && q.endDate == TextParam(endDate)
  {
    AttendanceQuery(if courseId.Some? && courseId.value != 0 then courseId else None,
                    TextParam(startDate), TextParam(endDate))
  }

  /** The case-sensitive test lets "all" through while "All" is held back. */
  lemma LowerCaseAllIsSent()
    ensures DashboardParams(Some("all"), None).academicYear == Some("all")
    ensures DashboardParams(Some("All"), None).academicYear == None
  {
  }
}
