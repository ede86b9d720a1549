/**
 * The Enrollment record (liveroom-backend/src/models/Enrollment.js): a user's
 * participation in a course, with the schema's defaults.
 */
module EnrollmentSchema {
  import opened Wrappers
  import opened CourseSchema

  /** `user` and `course` are required references. `progress` is meant as a percentage
      but any number is accepted. `totalHours` may be stored as `null`. */
  datatype Enrollment = Enrollment(
    user: UserId,
    course: CourseId,
    progress: real,
    nextLesson: string,
    completed: bool,
    totalHours: Option<real>,
    certificate: bool)

  const DefaultNextLesson: string := "Start Lesson 1"

  /** An enrollment created with only its two references: every other field takes its
      schema default. */
  function NewEnrollment(user: UserId, course: CourseId): (e: Enrollment)
  {
    Enrollment(user, course, 0.0, DefaultNextLesson, false, Some(0.0), false)
  }
}
