/**
 * MainActivity: the course list, deleting a course, the batch upload of the
 * whole local store and the database reset.
 */
module MainScreen {
  import opened Wrappers
  import opened Database
  import opened Remote
  import opened Models

  /** A `courses` row as loadCourses reads it into the list. */
  function CourseOf(id: int, row: CourseRow): (c: Course)
    ensures c.id == id && c.dayOfWeek == row.dayOfWeek && c.time == row.time && c.classType == row.classType
  {
    Course(id, row.dayOfWeek, row.time, row.classType)
  }

  /** `list` holds each stored course exactly once, as stored, and nothing else. */
  ghost predicate ListsCourses(list: seq<Course>, courses: map<int, CourseRow>) {
    && (forall i :: 0 <= i < |list| ==> list[i].id in courses && list[i] == CourseOf(list[i].id, courses[list[i].id]))
    && (forall id :: id in courses ==> exists i :: 0 <= i < |list| && list[i].id == id)
    && (forall i, j :: 0 <= i < j < |list| ==> list[i].id != list[j].id)
  }

  /** A listing of every course has one entry per stored row. */
  lemma {:induction false} ListsCoursesSize(list: seq<Course>, courses: map<int, CourseRow>)
    requires ListsCourses(list, courses)
    ensures |list| == |courses|
  {
    var ids := set i | 0 <= i < |list| :: list[i].id;
    forall id | id in courses ensures id in ids {
      var i :| 0 <= i < |list| && list[i].id == id;
    }
    assert ids == courses.Keys;
    DistinctIdsCount(list);
  }

  /** A list with pairwise distinct ids has as many ids as entries. */
  lemma {:induction false} DistinctIdsCount(list: seq<Course>)
    requires forall i, j :: 0 <= i < j < |list| ==> list[i].id != list[j].id
    ensures |set i | 0 <= i < |list| :: list[i].id| == |list|
  {
    if list != [] {
      var init := list[..|list| - 1];
      DistinctIdsCount(init);
      var last := list[|list| - 1].id;
      var ids := set i | 0 <= i < |list| :: list[i].id;
      var initIds := set i | 0 <= i < |init| :: init[i].id;
      assert ids == initIds + {last} by {
        forall x | x in ids ensures x in initIds + {last} {
          var i :| 0 <= i < |list| && list[i].id == x;
          if i < |init| {
            assert init[i].id == x;
          }
        }
      }
      assert last !in initIds;
    }
  }

  // ---- The upload ----

  /**
   * The paths uploadData writes: every course, and under it every instance
   * whose `course_id` is that course. Orphan instances are never visited.
   */
  predicate Uploads(instances: map<int, InstanceRow>, courseIds: set<int>, p: Path) {
    match p
    case CoursePath(c) => c in courseIds
    case InstancePath(c, i) => c in courseIds && i in instances && instances[i].courseId == c
  }

  /** The document uploadData builds for a path it writes. */
  function DocFor(courses: map<int, CourseRow>, instances: map<int, InstanceRow>, p: Path): Document
    requires Uploads(instances, courses.Keys, p)
  {
    match p
    case CoursePath(c) => CourseDocument(courses[c])
    case InstancePath(_, i) =>
      var row := instances[i];
      InstanceDocument(row.date, row.teacher, row.comments)
  }

  function UploadPaths(courses: map<int, CourseRow>, instances: map<int, InstanceRow>): (ps: set<Path>)
    ensures forall p :: p in ps <==> Uploads(instances, courses.Keys, p)
  {
    (set c | c in courses :: CoursePath(c))
    + (set i | i in instances && instances[i].courseId in courses :: InstancePath(instances[i].courseId, i))
  }

  /** What a committed upload leaves at each path it writes. */
  function UploadDocs(courses: map<int, CourseRow>, instances: map<int, InstanceRow>): map<Path, Document> {
    map p | p in UploadPaths(courses, instances) :: DocFor(courses, instances, p)
  }

  /**
   * The upload carries every course row and every non-orphan instance row,
   * each readable back unchanged from its document.
   */
  lemma UploadCarriesRows(courses: map<int, CourseRow>, instances: map<int, InstanceRow>)
    ensures forall c :: c in courses ==>
      CoursePath(c) in UploadDocs(courses, instances)
      && CourseRowOf(UploadDocs(courses, instances)[CoursePath(c)]) == Some(courses[c])
    ensures forall i :: i in instances && instances[i].courseId in courses ==>
      var p := InstancePath(instances[i].courseId, i);
      p in UploadDocs(courses, instances)
      && InstanceRowOf(UploadDocs(courses, instances)[p], instances[i].courseId) == Some(instances[i])
  {
    forall c | c in courses
      ensures CourseRowOf(UploadDocs(courses, instances)[CoursePath(c)]) == Some(courses[c])
    {
      CourseDocumentRoundTrip(courses[c]);
    }
    forall i | i in instances && instances[i].courseId in courses
      ensures InstanceRowOf(UploadDocs(courses, instances)[InstancePath(instances[i].courseId, i)],
                            instances[i].courseId) == Some(instances[i])
    {
      InstanceDocumentRoundTrip(instances[i]);
    }
  }

  /** Orphan instances are never uploaded, under any path. */
  lemma OrphansNotUploaded(courses: map<int, CourseRow>, instances: map<int, InstanceRow>, i: int, c: int)
    requires i in Orphans(courses, instances)
    ensures InstancePath(c, i) !in UploadDocs(courses, instances)
  {
  }

  /** Instance paths under course `c` of that course's own instance rows. */
  predicate InstanceOfCourse(instances: map<int, InstanceRow>, c: int, p: Path) {
    p.InstancePath? && p.courseId == c && p.instanceId in instances && instances[p.instanceId].courseId == c
  }

  /**
   * The inner cursor loop of uploadData: one `set` per instance row of
   * course `c`, appended to `batch0`.
   */
  method AppendInstanceWrites(instances: map<int, InstanceRow>, c: int, batch0: seq<Write>)
    returns (batch: seq<Write>)
    ensures forall p :: p in Pending(batch) <==> p in Pending(batch0) || InstanceOfCourse(instances, c, p)
    ensures forall p :: p in Pending(batch) ==>
      Pending(batch)[p] == (if InstanceOfCourse(instances, c, p)
                            then (var row := instances[p.instanceId]; InstanceDocument(row.date, row.teacher, row.comments))
                            else Pending(batch0)[p])
  {
    batch := batch0;
    var itodo := instances.Keys;
    while exists i :: i in itodo
      invariant itodo <= instances.Keys
      invariant forall p :: p in Pending(batch) <==>
        p in Pending(batch0) || (InstanceOfCourse(instances, c, p) && p.instanceId !in itodo)
      invariant forall p :: p in Pending(batch) ==>
        Pending(batch)[p] == (if InstanceOfCourse(instances, c, p) && p.instanceId !in itodo
                              then (var row := instances[p.instanceId]; InstanceDocument(row.date, row.teacher, row.comments))
                              else Pending(batch0)[p])
      decreases |itodo|
    {
      var i :| i in itodo;
      if instances[i].courseId == c {
        var row := instances[i];
        var w := Set(InstancePath(c, i), InstanceDocument(row.date, row.teacher, row.comments));
        PendingSnoc(batch, w);
        batch := batch + [w];
      }
      itodo := itodo - {i};
    }
  }

  /** What the upload has written once the courses in `done` (with their instances) are processed. */
  ghost predicate UploadedSoFar(courses: map<int, CourseRow>, instances: map<int, InstanceRow>, done: set<int>,
                                m: map<Path, Document>) {
    && (forall p :: p in m <==> Uploads(instances, done, p))
    && (forall p :: p in m ==> Uploads(instances, courses.Keys, p) && m[p] == DocFor(courses, instances, p))
  }

  /** Processing one more course: its document, then its instances' documents. */
  lemma UploadStep(courses: map<int, CourseRow>, instances: map<int, InstanceRow>, done: set<int>, c: int,
                   before: map<Path, Document>, after: map<Path, Document>)
    requires done <= courses.Keys && c in courses
    requires UploadedSoFar(courses, instances, done, before)
    requires var mid := before[CoursePath(c) := CourseDocument(courses[c])];
      && (forall p :: p in after <==> p in mid || InstanceOfCourse(instances, c, p))
      && (forall p :: p in after ==>
            after[p] == (if InstanceOfCourse(instances, c, p)
                         then (var row := instances[p.instanceId]; InstanceDocument(row.date, row.teacher, row.comments))
                         else mid[p]))
    ensures UploadedSoFar(courses, instances, done + {c}, after)
  {
    forall p ensures p in after <==> Uploads(instances, done + {c}, p) {
    }
    forall p | p in after ensures Uploads(instances, courses.Keys, p) && after[p] == DocFor(courses, instances, p) {
    }
  }

  /** Two maps that agree on keys and values are equal; used once the whole store is processed. */
  lemma UploadComplete(courses: map<int, CourseRow>, instances: map<int, InstanceRow>, m: map<Path, Document>)
    requires UploadedSoFar(courses, instances, courses.Keys, m)
    ensures m == UploadDocs(courses, instances)
  {
    var expected := UploadDocs(courses, instances);
    assert m.Keys == expected.Keys;
  }

  /**
   * uploadData's two nested cursor loops: for each course (in cursor order)
   * one `set` of the course document, then one `set` per instance of it.
   */
  method BuildUploadBatch(courses: map<int, CourseRow>, instances: map<int, InstanceRow>)
    returns (batch: seq<Write>)
    ensures Pending(batch) == UploadDocs(courses, instances)
  {
    batch := [];
    var todo := courses.Keys;
    ghost var done: set<int> := {};
    while exists c :: c in todo
      invariant todo + done == courses.Keys && todo !! done
      invariant UploadedSoFar(courses, instances, done, Pending(batch))
      decreases |todo|
    {
      var c :| c in todo;
      var w := Set(CoursePath(c), CourseDocument(courses[c]));
      PendingSnoc(batch, w);
      var withCourse := batch + [w];
      var next := AppendInstanceWrites(instances, c, withCourse);
      UploadStep(courses, instances, done, c, Pending(batch), Pending(next));
      batch := next;
      done := done + {c};
      todo := todo - {c};
    }
    UploadComplete(courses, instances, Pending(batch));
  }

  class HomeScreen {
    const store: LocalStore
    const mirror: Mirror
    var courseList: seq<Course>

    constructor (store: LocalStore, mirror: Mirror)
      ensures this.store == store && this.mirror == mirror && courseList == []
    {
      this.store := store;
      this.mirror := mirror;
      courseList := [];
    }

    /** loadCourses: one list entry per `courses` row, in the cursor's (unspecified) order. */
    method LoadCourses()
      modifies this
      ensures ListsCourses(courseList, store.courses)
    {
      var rows := store.courses;
      var list: seq<Course> := [];
      var todo := rows.Keys;
      while exists id :: id in todo
        invariant todo <= rows.Keys
        invariant forall i :: 0 <= i < |list| ==>
          list[i].id in rows && list[i].id !in todo && list[i] == CourseOf(list[i].id, rows[list[i].id])
        invariant forall id :: id in rows && id !in todo ==> exists i :: 0 <= i < |list| && list[i].id == id
        invariant forall i, j :: 0 <= i < j < |list| ==> list[i].id != list[j].id
        decreases |todo|
      {
        var id :| id in todo;
        var before := list;
        list := list + [CourseOf(id, rows[id])];
        assert forall i :: 0 <= i < |before| ==> list[i] == before[i];
        assert list[|list| - 1].id == id;
        todo := todo - {id};
      }
      courseList := list;
    }

    /**
     * deleteCourseFromDb (after the confirmation dialog): delete the course
     * row only; its instance rows stay, and remotely only the course document
     * goes, not its `instances` sub-collection.
     */
    method DeleteCourseFromDb(id: int, network: bool) returns (deletedRows: int)
      requires store.Valid()
      modifies this, store, mirror
      ensures store.Valid()
      ensures deletedRows == (if id in old(store.courses) then 1 else 0)
      ensures store.courses == old(store.courses) - {id}
      ensures store.instances == old(store.instances)
      ensures store.courseSeq == old(store.courseSeq) && store.instanceSeq == old(store.instanceSeq)
      ensures mirror.docs == (if deletedRows > 0 && network then old(mirror.docs) - {CoursePath(id)}
                              else old(mirror.docs))
      ensures deletedRows > 0 ==> ListsCourses(courseList, store.courses)
      ensures deletedRows == 0 ==> courseList == old(courseList)
    {
      deletedRows := store.DeleteCourse(id);
      if deletedRows > 0 {
        DeleteCourseFromFirestore(id, network);
        LoadCourses();
      }
    }

    /** deleteCourseFromFirestore: with a network, remove `courses/{id}`. */
    method DeleteCourseFromFirestore(id: int, network: bool)
      modifies mirror
      ensures mirror.docs == (if network then old(mirror.docs) - {CoursePath(id)} else old(mirror.docs))
    {
      if !network {
        return;
      }
      mirror.DeleteDocument(CoursePath(id));
    }

    /**
     * uploadData: with a network and at least one course, build one batch of
     * every course and instance document and commit it; the remote store
     * applies all of it when it `accepted` the batch and none otherwise.
     */
    method UploadData(network: bool, accepted: bool) returns (committed: bool)
      modifies mirror
      ensures committed == (network && |store.courses| > 0)
      ensures mirror.docs == (if committed && accepted
        then old(mirror.docs) + UploadDocs(store.courses, store.instances)
        else old(mirror.docs))
    {
      if !network {
        return false;
      }
      if |store.courses| == 0 {
        return false;
      }
      var batch := BuildUploadBatch(store.courses, store.instances);
      mirror.Commit(batch, accepted);
      committed := true;
    }

    /**
     * resetDatabase (after the confirmation dialog): delete every row of both
     * tables, keeping their AUTOINCREMENT sequences, then reload the list.
     */
    method ResetDatabase()
      requires store.Valid()
      modifies this, store
      ensures store.Valid()
      ensures store.courses == map[] && store.instances == map[]
      ensures store.courseSeq == old(store.courseSeq) && store.instanceSeq == old(store.instanceSeq)
      ensures courseList == []
    {
      var _ := store.DeleteAllCourses();
      var _ := store.DeleteAllInstances();
      LoadCourses();
      ListsCoursesSize(courseList, store.courses);
    }
  }
}
