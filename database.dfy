/**
 * The local SQLite store that DatabaseHelper creates: the `courses` and
 * `class_instances` tables, each a map from its AUTOINCREMENT `_id` to a row.
 * NOT NULL columns have plain types; the nullable columns (`description`,
 * `comments`) are Options.
 */
module Database {
  import opened Wrappers

  /** The largest rowid SQLite can assign (a signed 64-bit integer). */
  const MaxRowId: int := 0x7FFF_FFFF_FFFF_FFFF

  /** A `courses` row without its `_id`. */
  datatype CourseRow = CourseRow(
    dayOfWeek: string,
    time: string,
    capacity: int,
    duration: int,
    price: real,
    classType: string,
    description: Option<string>)

  /** A `class_instances` row without its `_id`. */
  datatype InstanceRow = InstanceRow(
    courseId: int,
    date: string,
    teacher: string,
    comments: Option<string>)

  /**
   * Instances whose `course_id` names no course row. The foreign key has no
   * ON DELETE action and is not enforced, so nothing prevents these.
   */
  function Orphans(courses: map<int, CourseRow>, instances: map<int, InstanceRow>): (r: set<int>)
    ensures forall iid :: iid in r <==> iid in instances && instances[iid].courseId !in courses
  {
    set iid | iid in instances && instances[iid].courseId !in courses
  }

  /**
   * The database file: both tables and, for each, its `sqlite_sequence` entry
   * (the largest id the table has ever handed out).
   */
  class LocalStore {
    var courses: map<int, CourseRow>
    var instances: map<int, InstanceRow>
    var courseSeq: int
    var instanceSeq: int

    /** Every id in a table is positive and no larger than the table's sequence. */
    ghost predicate Valid()
      reads this
    {
      && 0 <= courseSeq <= MaxRowId
      && 0 <= instanceSeq <= MaxRowId
      && (forall id :: id in courses ==> 1 <= id <= courseSeq)
      && (forall id :: id in instances ==> 1 <= id <= instanceSeq)
    }

    /** Opening a new database file runs onCreate: both CREATE TABLE statements. */
    constructor ()
      ensures Valid()
      ensures courses == map[] && instances == map[]
      ensures courseSeq == 0 && instanceSeq == 0
    {
      courses, instances := map[], map[];
      courseSeq, instanceSeq := 0, 0;
    }

    /**
     * onUpgrade: DROP TABLE IF EXISTS for both tables (which also removes their
     * `sqlite_sequence` entries), then onCreate again.
     */
    method OnUpgrade(oldVersion: int, newVersion: int)
      modifies this
      ensures Valid()
      ensures courses == map[] && instances == map[]
      ensures courseSeq == 0 && instanceSeq == 0
    {
      instances, instanceSeq := map[], 0;
      courses, courseSeq := map[], 0;
    }

    /**
     * INSERT INTO courses. The new id is one past the sequence; when the
     * sequence is already at MaxRowId SQLite fails with SQLITE_FULL and
     * SQLiteDatabase.insert returns -1.
     */
    method InsertCourse(row: CourseRow) returns (id: int)
      requires Valid()
      modifies this
      ensures Valid()
      ensures id == (if old(courseSeq) < MaxRowId then old(courseSeq) + 1 else -1)
      ensures id != -1 ==> id !in old(courses) && forall k :: k in old(courses) ==> k < id
      ensures courses == (if id != -1 then old(courses)[id := row] else old(courses))
      ensures courseSeq == (if id != -1 then id else old(courseSeq))
      ensures instances == old(instances) && instanceSeq == old(instanceSeq)
    {
      if courseSeq == MaxRowId {
        id := -1;
      } else {
        id := courseSeq + 1;
        courses := courses[id := row];
        courseSeq := id;
      }
    }

    /** UPDATE courses SET <every column> WHERE _id = id; returns the rows changed. */
    method UpdateCourse(id: int, row: CourseRow) returns (count: int)
      requires Valid()
      modifies this
      ensures Valid()
      ensures count == (if id in old(courses) then 1 else 0)
      ensures courses == (if id in old(courses) then old(courses)[id := row] else old(courses))
      ensures instances == old(instances)
      ensures courseSeq == old(courseSeq) && instanceSeq == old(instanceSeq)
    {
      if id in courses {
        courses := courses[id := row];
        count := 1;
      } else {
        count := 0;
      }
    }

    /** DELETE FROM courses WHERE _id = id; `class_instances` is not touched. */
    method DeleteCourse(id: int) returns (count: int)
      requires Valid()
      modifies this
      ensures Valid()
      ensures count == (if id in old(courses) then 1 else 0)
      ensures courses == old(courses) - {id}
      ensures instances == old(instances)
      ensures courseSeq == old(courseSeq) && instanceSeq == old(instanceSeq)
    {
      count := if id in courses then 1 else 0;
      courses := courses - {id};
    }

    /** DELETE FROM courses (no WHERE clause); the sequence is kept. */
    method DeleteAllCourses() returns (count: int)
      requires Valid()
      modifies this
      ensures Valid()
      ensures count == |old(courses)|
      ensures courses == map[]
      ensures instances == old(instances)
      ensures courseSeq == old(courseSeq) && instanceSeq == old(instanceSeq)
    {
      count := |courses|;
      courses := map[];
    }

    /** INSERT INTO class_instances, failing with -1 exactly as InsertCourse does. */
    method InsertInstance(row: InstanceRow) returns (id: int)
      requires Valid()
      modifies this
      ensures Valid()
      ensures id == (if old(instanceSeq) < MaxRowId then old(instanceSeq) + 1 else -1)
      ensures id != -1 ==> id !in old(instances) && forall k :: k in old(instances) ==> k < id
      ensures instances == (if id != -1 then old(instances)[id := row] else old(instances))
      ensures instanceSeq == (if id != -1 then id else old(instanceSeq))
      ensures courses == old(courses) && courseSeq == old(courseSeq)
    {
      if instanceSeq == MaxRowId {
        id := -1;
      } else {
        id := instanceSeq + 1;
        instances := instances[id := row];
        instanceSeq := id;
      }
    }

    /**
     * UPDATE class_instances SET date, teacher, comments WHERE _id = id:
     * `course_id` keeps its value.
     */
    method UpdateInstance(id: int, date: string, teacher: string, comments: Option<string>)
      returns (count: int)
      requires Valid()
      modifies this
      ensures Valid()
      ensures count == (if id in old(instances) then 1 else 0)
      ensures instances == (if id in old(instances)
        then old(instances)[id := InstanceRow(old(instances)[id].courseId, date, teacher, comments)]
        else old(instances))
      ensures courses == old(courses)
      ensures courseSeq == old(courseSeq) && instanceSeq == old(instanceSeq)
    {
      if id in instances {
        instances := instances[id := InstanceRow(instances[id].courseId, date, teacher, comments)];
        count := 1;
      } else {
        count := 0;
      }
    }

    /** DELETE FROM class_instances WHERE _id = id. */
    method DeleteInstance(id: int) returns (count: int)
      requires Valid()
      modifies this
      ensures Valid()
      ensures count == (if id in old(instances) then 1 else 0)
      ensures instances == old(instances) - {id}
      ensures courses == old(courses)
      ensures courseSeq == old(courseSeq) && instanceSeq == old(instanceSeq)
    {
      count := if id in instances then 1 else 0;
      instances := instances - {id};
    }

    /** DELETE FROM class_instances (no WHERE clause); the sequence is kept. */
    method DeleteAllInstances() returns (count: int)
      requires Valid()
      modifies this
      ensures Valid()
      ensures count == |old(instances)|
      ensures instances == map[]
      ensures courses == old(courses)
      ensures courseSeq == old(courseSeq) && instanceSeq == old(instanceSeq)
    {
      count := |instances|;
      instances := map[];
    }
  }

  /**
   * Deleting a course row orphans exactly the instances that pointed at it:
   * their rows stay, and nothing else becomes orphaned.
   */
  lemma DeleteCourseOrphans(courses: map<int, CourseRow>, instances: map<int, InstanceRow>, id: int)
    ensures Orphans(courses - {id}, instances)
      == Orphans(courses, instances) + (set iid | iid in instances && instances[iid].courseId == id)
  {
  }
}
