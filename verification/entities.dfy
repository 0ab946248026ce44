/** The persistent records the student service reads, reduced to the fields
    its logic looks at. Java `null` is `None`; identifiers are integers. */
module Entities {
  import opened Common

  /** A class (cohort) with its free-form academic-year and semester labels,
      e.g. "2024-25" and "Semester 5"; either label may be missing. */
  datatype ClassEntity = ClassEntity(academicYear: Option<string>, semester: Option<string>)

  /** A course, linked to the class that offers it; legacy courses may have
      no class. */
  datatype Course = Course(id: int, courseName: string, courseCode: string, classEntity: Option<ClassEntity>)

  /** A student and the class they are currently enrolled in, if any. */
  datatype Student = Student(name: string, rollNumber: string, classEntity: Option<ClassEntity>)

  /** One attended (or missed) session. Dates are day numbers; the status is
      the stored enum constant's name, absent when the column is null. */
  datatype Attendance = Attendance(
    id: int,
    course: Course,
    date: int,
    status: Option<string>,
    startTime: string,
    endTime: string)

  /** The lifecycle of a leave request. */
  datatype LeaveStatus = PENDING | APPROVED | REJECTED
}
