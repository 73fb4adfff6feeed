/**
 * The three immutable records the screens build from query results. Each
 * Java getter is the datatype's destructor of the same name, and the
 * constructor argument order is the Java constructor's.
 */
module Models {
  import opened Wrappers

  /** A course as the course list shows it: only id, day, time and type. */
  datatype Course = Course(id: int, dayOfWeek: string, time: string, classType: string)

  /** A class instance as the instance list shows it; the owning course is implicit. */
  datatype ClassInstance = ClassInstance(id: int, date: string, teacher: string, comments: Option<string>)

  /** One search hit: course id and type, instance date and teacher, then the course's day. */
  datatype SearchResult = SearchResult(
    courseId: int,
    courseType: string,
    instanceDate: string,
    instanceTeacher: string,
    dayOfWeek: string)
}
