/**
 * The remote document store the app mirrors into, as a map from document
 * path to field map. Course documents live at `courses/{id}` and instance
 * documents at `courses/{courseId}/instances/{id}`; the ids are the local
 * `_id` values, stringified (an injective encoding, so paths are kept as
 * values here).
 */
module Remote {
  import opened Wrappers
  import opened Database

  datatype Path =
    | CoursePath(courseId: int)
    | InstancePath(courseId: int, instanceId: int)

  /** A stored field value; a Java null is stored as a null field. */
  datatype FieldValue = Text(s: string) | Integer(i: int) | Decimal(r: real) | Null

  type Document = map<string, FieldValue>

  function NullableText(s: Option<string>): FieldValue {
    if s.Some? then Text(s.value) else Null
  }

  /** The seven fields of a course document, renamed from the column names. */
  function CourseDocument(row: CourseRow): (d: Document)
    ensures d.Keys == {"dayOfWeek", "time", "type", "capacity", "duration", "price", "description"}
  {
    map[
      "dayOfWeek" := Text(row.dayOfWeek),
      "time" := Text(row.time),
      "type" := Text(row.classType),
      "capacity" := Integer(row.capacity),
      "duration" := Integer(row.duration),
      "price" := Decimal(row.price),
      "description" := NullableText(row.description)]
  }

  /** The three fields of an instance document; `course_id` is carried by the path. */
  function InstanceDocument(date: string, teacher: string, comments: Option<string>): (d: Document)
    ensures d.Keys == {"date", "teacher", "comments"}
  {
    map["date" := Text(date), "teacher" := Text(teacher), "comments" := NullableText(comments)]
  }

  function TextField(d: Document, key: string): Option<string> {
    if key in d && d[key].Text? then Some(d[key].s) else None
  }

  function NullableTextField(d: Document, key: string): Option<Option<string>> {
    if key in d && d[key].Text? then Some(Some(d[key].s))
    else if key in d && d[key].Null? then Some(None)
    else None
  }

  /** Reads a course document back into a row, if it has the course shape. */
  function CourseRowOf(d: Document): Option<CourseRow> {
    var day, time, ty := TextField(d, "dayOfWeek"), TextField(d, "time"), TextField(d, "type");
    var desc := NullableTextField(d, "description");
    if day.Some? && time.Some? && ty.Some? && desc.Some?
      && "capacity" in d && d["capacity"].Integer?
      && "duration" in d && d["duration"].Integer?
      && "price" in d && d["price"].Decimal?
    then Some(CourseRow(day.value, time.value, d["capacity"].i, d["duration"].i,
                        d["price"].r, ty.value, desc.value))
    else None
  }

  /** Reads an instance document back into a row of course `courseId`. */
  function InstanceRowOf(d: Document, courseId: int): Option<InstanceRow> {
    var date, teacher, comments := TextField(d, "date"), TextField(d, "teacher"), NullableTextField(d, "comments");
    if date.Some? && teacher.Some? && comments.Some?
    then Some(InstanceRow(courseId, date.value, teacher.value, comments.value))
    else None
  }

  /** Pushing a course row and reading the document back gives the same row. */
  lemma CourseDocumentRoundTrip(row: CourseRow)
    ensures CourseRowOf(CourseDocument(row)) == Some(row)
  {
  }

  /** Pushing an instance row and reading the document back (under its course) gives the same row. */
  lemma InstanceDocumentRoundTrip(row: InstanceRow)
    ensures InstanceRowOf(InstanceDocument(row.date, row.teacher, row.comments), row.courseId) == Some(row)
  {
  }

  /** One `WriteBatch.set`: replace the document at `path`. */
  datatype Write = Set(path: Path, doc: Document)

  /** What a batch leaves at each path it writes: the last document set there. */
  function Pending(batch: seq<Write>): (m: map<Path, Document>)
    ensures m.Keys == set k | 0 <= k < |batch| :: batch[k].path
  {
    if batch == [] then map[]
    else Pending(batch[..|batch| - 1])[batch[|batch| - 1].path := batch[|batch| - 1].doc]
  }

  /** Appending a write to a batch overrides that one path. */
  lemma PendingSnoc(batch: seq<Write>, w: Write)
    ensures Pending(batch + [w]) == Pending(batch)[w.path := w.doc]
  {
    assert (batch + [w])[..|batch|] == batch;
  }

  /** Applies the writes of a batch one after the other, in order. */
  function ApplyWrites(docs: map<Path, Document>, batch: seq<Write>): map<Path, Document>
    decreases |batch|
  {
    if batch == [] then docs else ApplyWrites(docs[batch[0].path := batch[0].doc], batch[1..])
  }

  lemma {:induction false} PendingCons(w: Write, batch: seq<Write>)
    ensures Pending([w] + batch) == map[w.path := w.doc] + Pending(batch)
    decreases |batch|
  {
    if batch == [] {
      assert [w] + batch == [w];
      assert Pending([w]) == Pending([])[w.path := w.doc];
    } else {
      var init := batch[..|batch| - 1];
      assert ([w] + batch)[..|batch|] == [w] + init;
      PendingCons(w, init);
    }
  }

  lemma OverlayAfterUpdate(docs: map<Path, Document>, p: Path, d: Document, rest: map<Path, Document>)
    ensures docs[p := d] + rest == docs + (map[p := d] + rest)
  {
    var lhs, rhs := docs[p := d] + rest, docs + (map[p := d] + rest);
    assert lhs.Keys == rhs.Keys;
    forall q | q in lhs ensures lhs[q] == rhs[q] {
    }
  }

  /** Applying a batch in order is overlaying its last write per path onto the store. */
  lemma {:induction false} ApplyWritesIsOverlay(docs: map<Path, Document>, batch: seq<Write>)
    ensures ApplyWrites(docs, batch) == docs + Pending(batch)
    decreases |batch|
  {
    if batch != [] {
      var w := batch[0];
      assert batch == [w] + batch[1..];
      ApplyWritesIsOverlay(docs[w.path := w.doc], batch[1..]);
      PendingCons(w, batch[1..]);
      OverlayAfterUpdate(docs, w.path, w.doc, Pending(batch[1..]));
    }
  }

  /** The remote store, as the app's writes see it. */
  class Mirror {
    var docs: map<Path, Document>

    constructor (docs: map<Path, Document>)
      ensures this.docs == docs
    {
      this.docs := docs;
    }

    /** DocumentReference.set: the document is replaced wholesale, not merged. */
    method SetDocument(path: Path, doc: Document)
      modifies this
      ensures docs == old(docs)[path := doc]
    {
      docs := docs[path := doc];
    }

    /** DocumentReference.delete: removes that document only, never its sub-collections. */
    method DeleteDocument(path: Path)
      modifies this
      ensures docs == old(docs) - {path}
    {
      docs := docs - {path};
    }

    /**
     * WriteBatch.commit: when the remote store `accepted` the batch every write
     * applies, in order; otherwise none does.
     */
    method Commit(batch: seq<Write>, accepted: bool)
      modifies this
      ensures docs == (if accepted then old(docs) + Pending(batch) else old(docs))
    {
      if accepted {
        ApplyWritesIsOverlay(docs, batch);
        docs := ApplyWrites(docs, batch);
      }
    }
  }
}
