/** The teacher's dashboard page (`DashboardComponent`): how the classes of
    the day are labelled from the server's flags, which page a class opens,
    the status badges and the greeting. The HTTP request, the router and
    the clock are replaced by their inputs and outputs. */
module TeacherDashboard {
  import opened Common

  /** A class of the day as the server sends it; the two flags are false
      when the server leaves them out. */
  datatype TodayClass = TodayClass(
    id: int,
    courseName: string,
    courseCode: string,
    startTime: string,
    endTime: string,
    classRoom: string,
    className: string,
    section: string,
    status: string,
    isUnlockedByAdmin: bool,
    hasPendingRequest: bool)

  /** The dashboard response; any part may be missing. */
  datatype DashboardData = DashboardData(
    totalStudents: Option<int>,
    totalCourses: Option<int>,
    pendingUnlockRequests: Option<int>,
    attendanceMarkedToday: Option<int>,
    todayClasses: Option<seq<TodayClass>>)

  /** What the page shows once the response has arrived. */
  datatype View = View(
    totalStudents: int,
    totalCourses: int,
    pendingRequests: int,
    attendanceMarkedToday: int,
    todayClasses: seq<TodayClass>,
    isLoading: bool)

  const Unlocked := "Unlocked"
  const Pending := "Pending"
  const Completed := "Completed"

  /** The displayed status of a class: an admin unlock wins over a pending
      request, which wins over the server's own status; nothing else about
      the class changes. */
  function Overlay(c: TodayClass): (d: TodayClass)
    ensures c.isUnlockedByAdmin ==> d.status == Unlocked
    ensures !c.isUnlockedByAdmin && c.hasPendingRequest ==> d.status == Pending
    ensures !c.isUnlockedByAdmin && !c.hasPendingRequest ==> d.status == c.status
    ensures d == c.(status := d.status)
  {
    var uiStatus :=
      if c.isUnlockedByAdmin then Unlocked
      else if c.hasPendingRequest then Pending
      else c.status;
    c.(status := uiStatus)
  }

  /** Applying the overlay again changes nothing: the flags it reads are
      left as they were. */
  lemma OverlayIdempotent(c: TodayClass)
    ensures Overlay(Overlay(c)) == Overlay(c)
  {
  }

  /** A counter the server left out, or sent as 0, shows as 0. */
  function CountOrZero(n: Option<int>): (r: int)
    ensures n.None? ==> r == 0
    ensures n.Some? ==> r == n.value
  {
    n.GetOr(0)
  }

  /** The successful branch of `loadDashboardData`: counters defaulted to
      0, every class overlaid in order, loading finished. */
  function LoadDashboardData(data: DashboardData): (v: View)
    ensures v.totalStudents == CountOrZero(data.totalStudents)
    ensures v.totalCourses == CountOrZero(data.totalCourses)
    ensures v.pendingRequests == CountOrZero(data.pendingUnlockRequests)
    ensures v.attendanceMarkedToday == CountOrZero(data.attendanceMarkedToday)
    ensures data.todayClasses.None? ==> v.todayClasses == []
    ensures data.todayClasses.Some? ==>
              |v.todayClasses| == |data.todayClasses.value|
              && forall i :: 0 <= i < |v.todayClasses| ==> v.todayClasses[i] == Overlay(data.todayClasses.value[i])
    ensures !v.isLoading
  {
    var classes := data.todayClasses.GetOr([]);
    View(CountOrZero(data.totalStudents), CountOrZero(data.totalCourses),
         CountOrZero(data.pendingUnlockRequests), CountOrZero(data.attendanceMarkedToday),
         seq(|classes|, i requires 0 <= i < |classes| => Overlay(classes[i])),
         false)
  }

  /** Where a class button leads: the attendance page, in edit mode or not. */
  datatype Navigation = Navigation(path: string, courseId: int, startTime: string, mode: Option<string>)

  const MarkAttendancePath := "/teacher/mark-attendance"

  /** `handleClassAction`: completed and unlocked classes open the
      attendance page in edit mode; every other status opens it to mark. */
  function HandleClassAction(courseId: int, startTime: string, status: string): (n: Navigation)
    ensures n.path == MarkAttendancePath && n.courseId == courseId && n.startTime == startTime
    ensures n.mode == Some("edit") <==> status == Completed || status == Unlocked
    ensures n.mode.None? <==> status != Completed && status != Unlocked
  {
    if status == Completed || status == Unlocked then
      Navigation(MarkAttendancePath, courseId, startTime, Some("edit"))
    else
      Navigation(MarkAttendancePath, courseId, startTime, None)
  }

  /** A class the admin unlocked always opens in edit mode, and one with a
      request still pending never does. */
  lemma OverlaidClassRouting(c: TodayClass)
    ensures c.isUnlockedByAdmin ==>
              HandleClassAction(c.id, c.startTime, Overlay(c).status).mode == Some("edit")
    ensures !c.isUnlockedByAdmin && c.hasPendingRequest ==>
              HandleClassAction(c.id, c.startTime, Overlay(c).status).mode.None?
  {
  }

  /** `getStatusClass`: the badge style; "Locked" and "Expired" share one,
      an unknown status looks upcoming. */
  function StatusClass(status: string): (cls: string)
    ensures status == "Locked" || status == "Expired" <==> cls == "status-locked"
    ensures status == "Pending" <==> cls == "status-warning"
    ensures status == "Unlocked" <==> cls == "status-unlocked"
    ensures status == "Completed" <==> cls == "status-completed"
    ensures status == "Ongoing" <==> cls == "status-ongoing"
    ensures cls == "status-upcoming" <==> status == "Upcoming" || status !in {"Completed", "Ongoing", "Locked", "Expired", "Unlocked", "Pending"}
    ensures status !in {"Completed", "Ongoing", "Upcoming", "Locked", "Expired", "Unlocked", "Pending"} ==>
              cls == "status-upcoming"
  {
    match status
    case "Completed" => "status-completed"
    case "Ongoing" => "status-ongoing"
    case "Upcoming" => "status-upcoming"
    case "Locked" => "status-locked"
    case "Expired" => "status-locked"
    case "Unlocked" => "status-unlocked"
    case "Pending" => "status-warning"
    case _ => "status-upcoming"
  }

  /** `getStatusIcon`: the badge icon; an unknown status shows a clock. */
  function StatusIcon(status: string): (icon: string)
    ensures status == "Locked" <==> icon == "fas fa-lock"
    ensures status == "Expired" <==> icon == "fas fa-ban"
    ensures status == "Unlocked" <==> icon == "fas fa-unlock"
    ensures status == "Pending" <==> icon == "fas fa-hourglass-half"
    ensures status == "Completed" <==> icon == "fas fa-check-circle"
    ensures status == "Ongoing" <==> icon == "fas fa-play-circle"
    ensures icon == "fas fa-clock" <==> status == "Upcoming" || status !in {"Completed", "Ongoing", "Locked", "Expired", "Unlocked", "Pending"}
    ensures status !in {"Completed", "Ongoing", "Upcoming", "Locked", "Expired", "Unlocked", "Pending"} ==>
              icon == "fas fa-clock"
  {
    match status
    case "Completed" => "fas fa-check-circle"
    case "Ongoing" => "fas fa-play-circle"
    case "Upcoming" => "fas fa-clock"
    case "Locked" => "fas fa-lock"
    case "Expired" => "fas fa-ban"
    case "Unlocked" => "fas fa-unlock"
    case "Pending" => "fas fa-hourglass-half"
    case _ => "fas fa-clock"
  }

  /** `getStatusText`: the badge text; "Locked" and "Expired" both read
      "Time Expired", "Pending" reads "Time Requested", and an unknown
      status is shown as it is (so a status literally reading "Time
      Expired" cannot be told apart from a locked one). */
  function StatusText(status: string): (text: string)
    ensures status == "Locked" || status == "Expired" ==> text == "Time Expired"
    ensures status == "Pending" ==> text == "Time Requested"
    ensures status !in {"Locked", "Expired", "Pending"} ==> text == status
    ensures text == "Time Expired" ==> status in {"Locked", "Expired", "Time Expired"}
  {
    match status
    case "Completed" => "Completed"
    case "Ongoing" => "Ongoing"
    case "Upcoming" => "Upcoming"
    case "Locked" => "Time Expired"
    case "Expired" => "Time Expired"
    case "Unlocked" => "Unlocked"
    case "Pending" => "Time Requested"
    case _ => status
  }

  /** "Locked" and "Expired" look alike in style and text and differ only
      in their icon. */
  lemma LockedAndExpiredDifferOnlyInIcon()
    ensures StatusClass("Locked") == StatusClass("Expired")
    ensures StatusText("Locked") == StatusText("Expired")
    ensures StatusIcon("Locked") != StatusIcon("Expired")
  {
  }

  /** `setGreeting` for the hour of the local clock. */
  function Greeting(hour: int): (g: string)
    ensures hour < 12 <==> g == "Good Morning"
    ensures 12 <= hour < 18 <==> g == "Good Afternoon"
    ensures 18 <= hour <==> g == "Good Evening"
  {
    if hour < 12 then "Good Morning"
    else if hour < 18 then "Good Afternoon"
    else "Good Evening"
  }

  /** The greeting never goes back to an earlier part of the day as the
      hour advances. */
  lemma GreetingFollowsTheDay(h1: int, h2: int)
    requires h1 <= h2
    ensures Greeting(h1) == "Good Evening" ==> Greeting(h2) == "Good Evening"
    ensures Greeting(h2) == "Good Morning" ==> Greeting(h1) == "Good Morning"
  {
  }
}
