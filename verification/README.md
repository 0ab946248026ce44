# Student attendance engine — Dafny model

This project models the attendance logic of the Student Attendance
Management System. Its centre is the student dashboard of
`StudentServiceImpl.getStudentDashboard`. The dashboard takes the union of the
courses of the student's current class and the courses the student has
history in. It keeps the courses whose class matches the academic-year and
semester filters, and reports per-course and overall attendance percentages.
The model also covers:

- the attendance-history query;
- leave-request creation;
- the controller-side filter normalisation and date defaulting;
- the front end's choice of query parameters;
- the pure list and label logic of the student leave-request page and the teacher dashboard page.

Everything is pure functions over immutable datatypes, except four methods.
`StudentService.Aggregate` and `StudentService.GetStudentDashboard` visit the
retained courses in an unspecified order, as a Java `HashSet` does. Their
results are stated against that visiting order (one row per retained course,
each course visited once) and against an order-free sum over the set
(`SetTally`). `StudentService.CalculateOverallAttendance` and
`StudentController.GetDashboard` are methods because they call the dashboard.

Percentages are exact integer tenths of a percent. `PercentTenths(p, t)` is
`(2000·p + t) div 2t`, which is `Math.round(p / t · 100 · 10)` computed on
rationals: the source's percentage, rounded half up to one decimal, is this
number divided by 10. It is characterised by the rounding
bounds `(2r − 1)·t ≤ 2000·p < (2r + 1)·t`.

Repository queries and the clock are inputs:

- `classCourses` is what `findByClassEntity` returns;
- `historyCourses` is what `findCoursesByStudentId` returns;
- `tally(c)` holds the two count queries for course `c`;
- `records` is the student's attendance rows;
- `students` and `courses` are maps standing for `findById`;
- `today`, `hour` and `now` stand for the clock.

Files:

| file | module | models |
|---|---|---|
| common.dfy | Common | `Option`, `Result` |
| text.dfy | Text | ASCII `equalsIgnoreCase`, `replaceAll("\\D+", "")` |
| seqs.dfy | Seqs | order-preserving `filter` |
| percent.dfy | Percent | one-decimal half-up percentages |
| entities.dfy | Entities | class, course, student, attendance row, leave status |
| student_service.dfy | StudentService | `StudentServiceImpl` |
| student_controller.dfy | StudentController | `StudentController` |
| student_client.dfy | StudentClient | front-end `StudentService` parameter choice |
| filter_pipeline.dfy | FilterPipeline | client and controller composed |
| leave_requests.dfy | LeaveRequests | `LeaveRequestsComponent` |
| teacher_dashboard.dfy | TeacherDashboard | teacher `DashboardComponent` |

## Model

| member | source | states |
|---|---|---|
| StudentService.CandidateCourses | student-attendance-system/src/main/java/com/attendance/system/service/impl/StudentServiceImpl.java:47-52 | A course is a candidate iff it is in the history courses, or the student has a class and it is among that class's courses. With no class the candidates are exactly the history courses. Duplicates collapse. |
| StudentService.YearMatch | student-attendance-system/src/main/java/com/attendance/system/service/impl/StudentServiceImpl.java:58-61 | No year filter matches every course. With a filter, a course matches iff it has a class with an academic year whose lower-cased form equals the lower-cased filter; a course without a class or without a year never matches. |
| StudentService.Retained | student-attendance-system/src/main/java/com/attendance/system/service/impl/StudentServiceImpl.java:55-77 | The retained courses are a subset of the candidates, and as soon as either filter is set none of them lacks a class. |
| Text.EqualsIgnoreCase | student-attendance-system/src/main/java/com/attendance/system/service/impl/StudentServiceImpl.java:60 | `equalsIgnoreCase` holds iff the two lower-cased strings are equal. |
| Text.EqualsIgnoreCaseIsEquivalence | student-attendance-system/src/main/java/com/attendance/system/service/impl/StudentServiceImpl.java:72 | Case-insensitive equality is reflexive, symmetric and transitive. |
| Text.Digits | student-attendance-system/src/main/java/com/attendance/system/service/impl/StudentServiceImpl.java:68-69 | The digit string is no longer than the input and consists of digits only. |
| Text.DigitsKeepsDigits | student-attendance-system/src/main/java/com/attendance/system/service/impl/StudentServiceImpl.java:68-69 | A character occurs in the digit string iff it is a digit occurring in the input. |
| Text.DigitsConcat | student-attendance-system/src/main/java/com/attendance/system/service/impl/StudentServiceImpl.java:68-69 | Digit extraction distributes over concatenation, so digits keep their order. |
| Text.DigitsEmptyIffNoDigit | student-attendance-system/src/main/java/com/attendance/system/service/impl/StudentServiceImpl.java:68-72 | The digit string is empty iff the input holds no digit. |
| StudentService.SemesterMatch | student-attendance-system/src/main/java/com/attendance/system/service/impl/StudentServiceImpl.java:64-73 | No filter matches everything. A course without a class never matches. Otherwise a course matches iff the digit strings of label and filter are equal, or failing that the two are equal up to case. A class without a label and a digit-free filter match (both digit strings are empty). The call fails with `NullSemester` exactly when the class has no semester label and the filter contains a digit. |
| StudentService.YearFilterNeedsClass | student-attendance-system/src/main/java/com/attendance/system/service/impl/StudentServiceImpl.java:58-61 | Under a year filter, every retained course has a class whose academic year equals the filter up to case. Classless courses are dropped. |
| StudentService.NoFilterKeepsAll | student-attendance-system/src/main/java/com/attendance/system/service/impl/StudentServiceImpl.java:58-75 | With neither filter every candidate is retained and the semester comparison cannot fail. |
| StudentService.FiltersAreIndependent | student-attendance-system/src/main/java/com/attendance/system/service/impl/StudentServiceImpl.java:58-75 | The year and semester filters act independently: the courses kept by both are the courses kept by the year filter alone intersected with those kept by the semester filter alone. |
| StudentService.SemesterFiveMatchesFive | student-attendance-system/src/main/java/com/attendance/system/service/impl/StudentServiceImpl.java:67-72 | The stored label "Semester 5" matches the filter "5". |
| StudentService.SameNumberMatches | student-attendance-system/src/main/java/com/attendance/system/service/impl/StudentServiceImpl.java:67-72 | Two labels carrying the same number match whatever digit-free text surrounds it, e.g. "Sem 5" and "5th Semester". |
| StudentService.DifferentNumberMisses | student-attendance-system/src/main/java/com/attendance/system/service/impl/StudentServiceImpl.java:67-72 | A stored label whose digit string differs from an all-digit filter does not match it, since the case-insensitive fallback only accepts the filter itself; e.g. "Semester 15" misses "5" and "S1" misses "15". |
| Text.FoldedDigitsAreExact | student-attendance-system/src/main/java/com/attendance/system/service/impl/StudentServiceImpl.java:72 | The only string equal up to case to a string of digits is that string itself. |
| StudentService.DigitlessLabelsMatch | student-attendance-system/src/main/java/com/attendance/system/service/impl/StudentServiceImpl.java:68-72 | A filter and a stored label that both contain no digit always match, since both digit strings are empty. |
| StudentService.SemesterMatchSymmetric | student-attendance-system/src/main/java/com/attendance/system/service/impl/StudentServiceImpl.java:68-72 | For any two courses with classes, filtering the one labelled b by a gives the same outcome as filtering the one labelled a by b: swapping the stored label and the filter does not change the result. |
| StudentService.Stat | student-attendance-system/src/main/java/com/attendance/system/service/impl/StudentServiceImpl.java:85-98 | A course row carries the course's id, name, code and both counts, and its percentage is `PercentTenths(present, total)`: 0.0 with no sessions and at most 100.0 when present ≤ total. |
| Percent.PercentTenths | student-attendance-system/src/main/java/com/attendance/system/service/impl/StudentServiceImpl.java:88-89 | The result is 0 when total = 0. Otherwise it is the integer r with (2r−1)·total ≤ 2000·present < (2r+1)·total, which is 1000·present/total rounded half up. |
| Percent.RoundingIsUnique | student-attendance-system/src/main/java/com/attendance/system/service/impl/StudentServiceImpl.java:88-89 | Only one number of tenths meets the half-up rounding bounds. |
| Percent.PercentInRange | student-attendance-system/src/main/java/com/attendance/system/service/impl/StudentServiceImpl.java:88-89 | With present ≤ total the percentage lies in [0.0, 100.0]. Full attendance is exactly 100.0. |
| Percent.NoPresenceIsZero | student-attendance-system/src/main/java/com/attendance/system/service/impl/StudentServiceImpl.java:88-89 | A course with sessions but no presence shows 0.0. |
| StudentService.SetTallyRemove | student-attendance-system/src/main/java/com/attendance/system/service/impl/StudentServiceImpl.java:100-101 | The summed counts of a set of courses can be split off at any element, so the summing order does not matter. |
| StudentService.Aggregate | student-attendance-system/src/main/java/com/attendance/system/service/impl/StudentServiceImpl.java:80-102 | The loop visits every retained course exactly once, in some order, and emits the row of each course in the order visited, so there is exactly one row per retained course. The running sums equal the set-wide sum of sessions and presences. |
| StudentService.GetStudentDashboard | student-attendance-system/src/main/java/com/attendance/system/service/impl/StudentServiceImpl.java:28-112 | An unknown student fails with `StudentNotFound`. A semester-comparison fault on any candidate fails with `NullSemester`, and the call succeeds iff there is none. The labels are the current class's own, or "N/A" without a class, independent of the filters. The rows are those of the retained courses, one per course in some visiting order, and the overall percentage is computed from the summed counts. |
| StudentService.CalculateOverallAttendance | student-attendance-system/src/main/java/com/attendance/system/service/impl/StudentServiceImpl.java:151-153 | Returns the dashboard's overall percentage for the same filters, succeeding iff the student exists and no candidate trips the semester comparison, and otherwise the dashboard's failure. |
| StudentService.SetTallyConsistent | student-attendance-system/src/main/java/com/attendance/system/service/impl/StudentServiceImpl.java:100-101 | If every course has present ≤ total, so do the summed counts. |
| StudentService.SetTallyNoSessions | student-attendance-system/src/main/java/com/attendance/system/service/impl/StudentServiceImpl.java:100-101 | Courses that each have no session sum to no session at all. |
| StudentService.OverallInRange | student-attendance-system/src/main/java/com/attendance/system/service/impl/StudentServiceImpl.java:106-108 | The overall percentage lies in [0.0, 100.0] when every course has present ≤ total. It is 0.0 when nothing is retained, and also when no retained course has had a session (the `totalClassesOverall > 0` guard). |
| StudentService.OverallIsNotMeanOfCourses | student-attendance-system/src/main/java/com/attendance/system/service/impl/StudentServiceImpl.java:100-109 | With 9/10 and 1/100 the course rows show 90.0 and 1.0. The overall is 9.1 (10/110), not their mean. |
| StudentService.EmptyStudentHasEmptyDashboard | student-attendance-system/src/main/java/com/attendance/system/service/impl/StudentServiceImpl.java:47-109 | No class and no history give no candidates, no rows, no fault and an overall 0.0. |
| StudentService.Detail | student-attendance-system/src/main/java/com/attendance/system/service/impl/StudentServiceImpl.java:125-127 | A history row carries the record's id, date, course name, code and times. A missing status reads "UNKNOWN". |
| StudentService.SelectRecords | student-attendance-system/src/main/java/com/attendance/system/service/impl/StudentServiceImpl.java:119-124 | With a course id, exactly the rows of that course are kept, whatever their dates. Without one, exactly the rows with start ≤ date ≤ end are kept. Each kept row keeps its multiplicity. |
| StudentService.GetStudentAttendance | student-attendance-system/src/main/java/com/attendance/system/service/impl/StudentServiceImpl.java:116-129 | An unknown student fails with `StudentNotFound`, and an unknown explicit course with `CourseNotFound`. Otherwise the call succeeds, and the result is the selected rows, in order, turned into history rows. |
| StudentService.CourseIdIgnoresDates | student-attendance-system/src/main/java/com/attendance/system/service/impl/StudentServiceImpl.java:119-121 | With a course id the date range has no effect on the selection. |
| StudentService.SelectRecordsConcat | student-attendance-system/src/main/java/com/attendance/system/service/impl/StudentServiceImpl.java:121-128 | The selection keeps repository order: selecting from two batches is selecting from each and concatenating. |
| StudentService.CreateLeaveRequest | student-attendance-system/src/main/java/com/attendance/system/service/impl/StudentServiceImpl.java:133-143 | An unknown student fails. Otherwise the request belongs to the student, copies dates, reason and type from the form, and is PENDING. |
| StudentController.NormalizeFilter | student-attendance-system/src/main/java/com/attendance/system/controller/StudentController.java:39-40 | A filter becomes absent iff it is absent, empty, or "All" in any letter case. Every other value passes unchanged. |
| StudentController.NormalizeIdempotent | student-attendance-system/src/main/java/com/attendance/system/controller/StudentController.java:39-40 | Normalising twice is normalising once. |
| StudentController.AllInAnyCaseIsNoFilter | student-attendance-system/src/main/java/com/attendance/system/controller/StudentController.java:39-40 | "All", "all", "ALL" and "" all become no filter. |
| StudentController.SentinelFiltersKeepEverything | student-attendance-system/src/main/java/com/attendance/system/controller/StudentController.java:39-42 | "All" or "" for both filters retains every candidate course, like no filter. |
| StudentController.GetDashboard | student-attendance-system/src/main/java/com/attendance/system/controller/StudentController.java:34-43 | The dashboard is computed under the normalised filters, with the same failures; it succeeds iff the student exists and no candidate trips the semester comparison. |
| StudentController.DefaultStart | student-attendance-system/src/main/java/com/attendance/system/controller/StudentController.java:53 | A missing start date becomes today − 30. A given one is kept. |
| StudentController.DefaultEnd | student-attendance-system/src/main/java/com/attendance/system/controller/StudentController.java:54 | A missing end date becomes today. A given one is kept. |
| StudentController.GetAttendanceHistory | student-attendance-system/src/main/java/com/attendance/system/controller/StudentController.java:46-57 | The result is the service's history for the same student and course with the missing bounds defaulted, so the failures are the service's and a known student with a known or absent course always succeeds. Without a course id every listed row is dated within the defaulted range. |
| StudentController.CourseIdMakesDatesIrrelevant | student-attendance-system/src/main/java/com/attendance/system/controller/StudentController.java:53-56 | With a course id the result depends neither on the dates given nor on today. |
| StudentController.DefaultWindowListsRecentRecords | student-attendance-system/src/main/java/com/attendance/system/controller/StudentController.java:53-56 | With no course and no dates, a record dated within the last 30 days up to today is listed. |
| StudentClient.DashboardParams | student-attendance-frontend/src/app/core/services/student.service.ts:24-29 | The year is sent iff it is present, non-empty, not "Select Year" and not exactly "All"; likewise the semester with "Select Semester". Sent values are unchanged. |
| StudentClient.LowerCaseAllIsSent | student-attendance-frontend/src/app/core/services/student.service.ts:24-26 | The comparison is case-sensitive: "all" is sent, "All" is not. |
| StudentClient.AttendanceParams | student-attendance-frontend/src/app/core/services/student.service.ts:43-45 | The course id is sent iff present and non-zero. Each date is sent independently iff non-empty. |
| FilterPipeline.EffectiveYearFilter | student-attendance-frontend/src/app/core/services/student.service.ts:24-26 | End to end with the controller's normalisation, a year choice filters iff it is present, non-empty, not the prompt and not "All" in any case. It then arrives unchanged. |
| FilterPipeline.EffectiveSemesterFilter | student-attendance-frontend/src/app/core/services/student.service.ts:27-29 | The same for the semester choice. |
| FilterPipeline.BlankDatesGetDefaultWindow | student-attendance-frontend/src/app/core/services/student.service.ts:44-45 | A blank or missing date is not sent, so the controller substitutes today − 30 or today, each bound on its own. |
| FilterPipeline.CourseZeroMeansDateRange | student-attendance-frontend/src/app/core/services/student.service.ts:43 | Course id 0 is never sent, so the history falls back to the date range. |
| LeaveRequests.PendingRequests | student-attendance-frontend/src/app/student/components/leave-requests/leave-requests.component.ts:226-228 | A request is listed iff it is in the list and PENDING. |
| LeaveRequests.ProcessedRequests | student-attendance-frontend/src/app/student/components/leave-requests/leave-requests.component.ts:230-232 | A request is listed iff it is in the list and not PENDING. |
| LeaveRequests.CanDeleteRequest | student-attendance-frontend/src/app/student/components/leave-requests/leave-requests.component.ts:222-224 | A request can be withdrawn iff its status is PENDING. |
| LeaveRequests.PendingAreDeletable | student-attendance-frontend/src/app/student/components/leave-requests/leave-requests.component.ts:222-232 | A listed request is in the pending list iff `canDeleteRequest` holds, and in the processed list iff it does not. |
| LeaveRequests.PendingProcessedPartition | student-attendance-frontend/src/app/student/components/leave-requests/leave-requests.component.ts:226-232 | The two lists together hold every request exactly as often as the list does, no request is in both, and each keeps relative order. |
| LeaveRequests.ConfirmDeleteRequest | student-attendance-frontend/src/app/student/components/leave-requests/leave-requests.component.ts:167-170 | The request is remembered, the dialog opens and the list is untouched. |
| LeaveRequests.WithoutId | student-attendance-frontend/src/app/student/components/leave-requests/leave-requests.component.ts:174-176 | Exactly the requests with the given id are dropped; every other request keeps its multiplicity. |
| LeaveRequests.OnDeleteConfirmed | student-attendance-frontend/src/app/student/components/leave-requests/leave-requests.component.ts:172-182 | Without a remembered request nothing changes. With one, the list becomes `WithoutId` of its id: exactly the requests sharing the id are removed, the others keep their order and multiplicities. The dialog closes and the target is cleared. |
| LeaveRequests.DeleteKeepsOrder | student-attendance-frontend/src/app/student/components/leave-requests/leave-requests.component.ts:174-176 | Survivors keep their relative order. |
| LeaveRequests.DeleteIdempotent | student-attendance-frontend/src/app/student/components/leave-requests/leave-requests.component.ts:174-176 | Deleting the same id twice is deleting it once. |
| LeaveRequests.OnDeleteCancelled | student-attendance-frontend/src/app/student/components/leave-requests/leave-requests.component.ts:184-187 | The dialog closes, the target is cleared, and the list is unchanged. |
| LeaveRequests.CancelledDeleteChangesNothing | student-attendance-frontend/src/app/student/components/leave-requests/leave-requests.component.ts:167-187 | Opening and cancelling the dialog, even followed by a confirm, leaves the list as it was. |
| LeaveRequests.FindCourse | student-attendance-frontend/src/app/student/components/leave-requests/leave-requests.component.ts:142 | The first catalogue course with the id, or none when no course has it. |
| LeaveRequests.NewRequest | student-attendance-frontend/src/app/student/components/leave-requests/leave-requests.component.ts:144-154 | The new request has the given id, the form's dates, reason and proof document, status PENDING, the submission time, and no processing data. Its course name and code are those of the first catalogue course with the form's course id, and empty when no course has it. |
| LeaveRequests.OnSubmitLeaveAsWritten | student-attendance-frontend/src/app/student/components/leave-requests/leave-requests.component.ts:138-165 | An invalid form changes nothing. A valid one puts `NewRequest` with id = old length + 1, built from the form and the catalogue, in front of the old list and closes the form. |
| LeaveRequests.AsWrittenReusesIds | student-attendance-frontend/src/app/student/components/leave-requests/leave-requests.component.ts:145 | With ids 2 and 3 listed, the next request also gets id 3. Withdrawing it then deletes request 3 too. |
| LeaveRequests.OnSubmitLeave | student-attendance-frontend/src/app/student/components/leave-requests/leave-requests.component.ts:138-165 | Same as written, except the new request, built from the form and the catalogue, has an id that differs from every listed id, so unique ids stay unique. |
| LeaveRequests.SubmitThenWithdrawRestores | student-attendance-frontend/src/app/student/components/leave-requests/leave-requests.component.ts:144-181 | Submitting and then withdrawing the new request restores the list exactly. |
| LeaveRequests.SubmittedRequestIsPending | student-attendance-frontend/src/app/student/components/leave-requests/leave-requests.component.ts:152-157 | The new request is deletable, heads the pending list, and leaves the processed list unchanged. |
| LeaveRequests.DeleteKeepsIdsUnique | student-attendance-frontend/src/app/student/components/leave-requests/leave-requests.component.ts:172-181 | Deleting keeps ids unique. |
| LeaveRequests.StatusColor | student-attendance-frontend/src/app/student/components/leave-requests/leave-requests.component.ts:189-200 | PENDING→warning, APPROVED→success, REJECTED→danger, each iff. Any other status→secondary. |
| LeaveRequests.StatusIcon | student-attendance-frontend/src/app/student/components/leave-requests/leave-requests.component.ts:202-213 | The three statuses get clock, check and cross icons, each iff. The question icon is used exactly when the badge colour falls back to secondary, that is, for any other status. |
| LeaveRequests.StatusesAreDistinguished | student-attendance-frontend/src/app/student/components/leave-requests/leave-requests.component.ts:189-213 | Real statuses never get a fallback, and distinct statuses get distinct colours and icons. |
| LeaveRequests.TotalDays | student-attendance-frontend/src/app/student/components/leave-requests/leave-requests.component.ts:215-220 | The day count is at least 1, and equals 1 iff the two dates are equal. |
| LeaveRequests.TotalDaysCountsCoveredDays | student-attendance-frontend/src/app/student/components/leave-requests/leave-requests.component.ts:215-220 | The count is symmetric in its dates and equals the number of calendar days between them, both included. |
| TeacherDashboard.Overlay | student-attendance-frontend/src/app/teacher/components/dashboard/dashboard.component.ts:45-58 | An admin unlock shows "Unlocked" whatever the pending flag. Otherwise a pending request shows "Pending", and otherwise the server status is kept. No other field changes. |
| TeacherDashboard.CountOrZero | student-attendance-frontend/src/app/teacher/components/dashboard/dashboard.component.ts:40-43 | A missing counter shows 0; a present one shows its value. |
| TeacherDashboard.OverlayIdempotent | student-attendance-frontend/src/app/teacher/components/dashboard/dashboard.component.ts:45-58 | Overlaying twice is overlaying once. |
| TeacherDashboard.LoadDashboardData | student-attendance-frontend/src/app/teacher/components/dashboard/dashboard.component.ts:38-60 | Missing counters show 0. Every class of the day is overlaid, in order; a missing list shows empty. Loading ends. |
| TeacherDashboard.HandleClassAction | student-attendance-frontend/src/app/teacher/components/dashboard/dashboard.component.ts:76-87 | Navigation goes to the attendance page with the course and start time. It uses edit mode iff the status is "Completed" or "Unlocked". |
| TeacherDashboard.OverlaidClassRouting | student-attendance-frontend/src/app/teacher/components/dashboard/dashboard.component.ts:45-86 | An admin-unlocked class always opens in edit mode. A class with only a pending request never does. |
| TeacherDashboard.StatusClass | student-attendance-frontend/src/app/teacher/components/dashboard/dashboard.component.ts:114-125 | "Completed", "Ongoing", "Unlocked" and "Pending" map to status-completed, status-ongoing, status-unlocked and status-warning, each iff. "Locked" and "Expired" both map to status-locked, and only they do. status-upcoming is used iff the status is "Upcoming" or unknown. |
| TeacherDashboard.StatusIcon | student-attendance-frontend/src/app/teacher/components/dashboard/dashboard.component.ts:127-138 | "Completed", "Ongoing", "Locked", "Expired", "Unlocked" and "Pending" map to the check, play, lock, ban, unlock and hourglass icons, each iff. The clock is used iff the status is "Upcoming" or unknown. |
| TeacherDashboard.StatusText | student-attendance-frontend/src/app/teacher/components/dashboard/dashboard.component.ts:140-151 | "Locked" and "Expired" read "Time Expired" and "Pending" reads "Time Requested". Unknown statuses are shown unchanged. |
| TeacherDashboard.LockedAndExpiredDifferOnlyInIcon | student-attendance-frontend/src/app/teacher/components/dashboard/dashboard.component.ts:114-150 | "Locked" and "Expired" share style and text but not the icon. |
| TeacherDashboard.Greeting | student-attendance-frontend/src/app/teacher/components/dashboard/dashboard.component.ts:69-74 | "Good Morning" iff hour < 12, "Good Afternoon" iff 12 ≤ hour < 18, "Good Evening" iff hour ≥ 18. |
| TeacherDashboard.GreetingFollowsTheDay | student-attendance-frontend/src/app/teacher/components/dashboard/dashboard.component.ts:69-74 | As the hour advances the greeting never returns to an earlier part of the day. |

## Left out

- Teacher mark/edit eligibility (`canMarkAttendance`, `canEditAttendance`): only the service interface and the controller dispatch exist in the source. The time-window rule lives in code that is not part of this model.
- Repositories, JPA and persistence: query results are inputs. The leave request's database id, assigned when the row is saved, is not modelled. `createLeaveRequest` never sets the request's teacher, so the source saves it with a null teacher link; the model's request has no teacher field.
- Authentication and the security-context lookup of the current student: the student id is a parameter.
- HTTP, `HttpParams`, Observables, routing, Angular modules, `setTimeout` message clearing, `console` logging, the mock leave-request list, the form-control touching of an invalid submit and the `requestUnlock` prompt are not modelled.
- LeaveRequests.OnSubmitLeave: form validity (`Validators.required`, `minLength(10)`) is a boolean parameter. The form's course id is taken as already converted to a number.
- Percent.PercentTenths: the source computes with IEEE doubles and `Math.round`. The model is the exact rational result, so double rounding artefacts near .x5 are not reproduced.
- StudentService.GetStudentDashboard: the source sums the `long` counts into `int` accumulators and casts each count to `int`. The model's counts are unbounded, so 32-bit overflow is not modelled.
- Course equality is structural, standing in for JPA entity identity in the `HashSet`.
- Java `equalsIgnoreCase` folds Unicode case. The model folds ASCII letters only.
- StudentService.SelectRecords: the rows are assumed to be the student's own, in repository order. The date bounds are non-null day numbers because the controller always fills them.
- Dates and times are integer day numbers or opaque strings. `LocalDate.now()`, `new Date()`, `getHours()` and date-string parsing are parameters: `today`, `now`, `hour`, `parse`.
- LeaveRequests.TotalDays: the day count works on whole day numbers rather than millisecond differences of parsed dates. ISO date-only strings parse to UTC midnight, so the two agree.
- TeacherDashboard: TypeScript truthiness is simplified. The unlock and pending flags are booleans, counters are absent or numbers (NaN is not modelled), and property lookups inherited from `Object.prototype` (a status of "toString") are not modelled.
- The data-transfer getters and setters are used only as datatype shapes.

## Findings

| source | as written | input that shows it | evidently intended | confidence | as-written member | corrected member |
|---|---|---|---|---|---|---|
| student-attendance-frontend/src/app/student/components/leave-requests/leave-requests.component.ts:145 | a new request gets id `leaveRequests.length + 1` | list with ids 2 and 3 (request 1 withdrawn): submitting gives id 3 again, and withdrawing the new request also deletes the old request 3 (LeaveRequests.AsWrittenReusesIds) | a fresh id, so that withdrawal by id removes only the chosen request | not executed; high | LeaveRequests.OnSubmitLeaveAsWritten | LeaveRequests.OnSubmitLeave |

The dashboard's `NullSemester` failure is modelled as written, not corrected.
`StudentServiceImpl.java:72` dereferences a null stored semester whenever the
digit comparison fails. A course whose class has no semester label therefore
makes the whole dashboard request fail under any filter containing a digit.
