/**
 * ClassInstanceActivity: the instances of one course. The add/edit dialog's
 * validation and save, the delete, the one-document syncs, the list reload,
 * the day-name mapping and the (unused) date/day check.
 */
module ClassInstances {
  import opened Wrappers
  import opened Text
  import opened Forms
  import opened Database
  import opened Remote
  import opened Models
  import opened Dates
  import opened DayOfWeekValidators

  // ---- Day names ----

  /** The lower-case day names, Sunday first. */
  function LowerDayName(w: int): (name: string)
    requires Sunday <= w <= Saturday
    ensures name == Lower(WeekdayName(w))
  {
    var name := ["sunday", "monday", "tuesday", "wednesday", "thursday", "friday", "saturday"][w - 1];
    assert name == Lower(WeekdayName(w)) by {
      var n := WeekdayName(w);
      assert |name| == |n|;
      forall i | 0 <= i < |n| ensures name[i] == LowerChar(n[i]) {
        if i == 0 {
          assert name[0] == n[0] + ('a' - 'A');
        }
      }
    }
    name
  }

  /** getDayOfWeekFromString: the Calendar constant of a day name in any letter case, or -1. */
  function DayOfWeekFromString(day: string): (w: int)
    ensures w == -1 || Sunday <= w <= Saturday
  {
    var d := Lower(day);
    if d == "sunday" then Sunday
    else if d == "monday" then Monday
    else if d == "tuesday" then Tuesday
    else if d == "wednesday" then Wednesday
    else if d == "thursday" then Thursday
    else if d == "friday" then Friday
    else if d == "saturday" then Saturday
    else -1
  }

  /** A name maps to day `w` exactly when it equals that day's English name ignoring case. */
  lemma DayOfWeekFromStringIff(day: string, w: int)
    requires Sunday <= w <= Saturday
    ensures DayOfWeekFromString(day) == w <==> EqualsIgnoreCase(day, WeekdayName(w))
  {
    var names := ["sunday", "monday", "tuesday", "wednesday", "thursday", "friday", "saturday"];
    assert LowerDayName(w) == names[w - 1];
  }

  /** Names no day matches map to -1. */
  lemma DayOfWeekFromStringUnknown(day: string)
    ensures DayOfWeekFromString(day) == -1 <==>
      forall w :: Sunday <= w <= Saturday ==> !EqualsIgnoreCase(day, WeekdayName(w))
  {
    if DayOfWeekFromString(day) != -1 {
      DayOfWeekFromStringIff(day, DayOfWeekFromString(day));
    } else {
      forall w | Sunday <= w <= Saturday ensures !EqualsIgnoreCase(day, WeekdayName(w)) {
        DayOfWeekFromStringIff(day, w);
      }
    }
  }

  /** Every day's English name maps back to that day. */
  lemma DayOfWeekFromName(w: int)
    requires Sunday <= w <= Saturday
    ensures DayOfWeekFromString(WeekdayName(w)) == w
  {
    DayOfWeekFromStringIff(WeekdayName(w), w);
  }

  // ---- isDateValid ----

  /**
   * isDateValid: the text parses as a dd/MM/yyyy date whose English day name
   * equals `requiredDay` ignoring case.
   */
  predicate IsDateValid(dateStr: string, requiredDay: string) {
    match ParseDate(dateStr)
    case None => false
    case Some(d) => EqualsIgnoreCase(WeekdayName(WeekdayOf(d)), requiredDay)
  }

  /**
   * isDateValid and the picker's DayOfWeekValidator agree: a parsed date
   * passes exactly when the validator built from the course's day accepts
   * that date's UTC midnight.
   */
  lemma IsDateValidMatchesPicker(dateStr: string, requiredDay: string)
    requires ParseDate(dateStr).Some?
    ensures var d := ParseDate(dateStr).value;
      IsDateValid(dateStr, requiredDay) <==>
      DayOfWeekValidator(DayOfWeekFromString(requiredDay)).IsValid(EpochDayOf(d) * MillisPerDay)
  {
    var d := ParseDate(dateStr).value;
    var k := EpochDayOf(d);
    EpochDayOfMidnight(k, k * MillisPerDay);
    DayOfWeekFromStringIff(requiredDay, WeekdayOf(d));
  }

  /** A date the picker admits for the course's day, written as dd/MM/yyyy, passes isDateValid. */
  lemma PickedDatePassesIsDateValid(d: Date, requiredDay: string)
    requires IsCalendarDate(d)
    requires DayOfWeekValidator(DayOfWeekFromString(requiredDay)).IsValid(EpochDayOf(d) * MillisPerDay)
    ensures IsDateValid(FormatDate(d), requiredDay)
  {
    ParseFormattedDate(d);
    IsDateValidMatchesPicker(FormatDate(d), requiredDay);
  }

  // ---- The dialog ----

  datatype InstanceError = DateRequired | TeacherRequired

  /** validateInstanceInput: both checks run, each failing one adds its error. */
  function InstanceErrors(dateText: string, teacher: Selection<string>): seq<InstanceError> {
    (if Trim(dateText) == [] then [DateRequired] else [])
    + (if teacher.position == 0 then [TeacherRequired] else [])
  }

  predicate ValidateInstanceInput(dateText: string, teacher: Selection<string>) {
    InstanceErrors(dateText, teacher) == []
  }

  /** The dialog accepts exactly when the date text has a non-blank char and a teacher is chosen. */
  lemma ValidateInstanceInputIff(dateText: string, teacher: Selection<string>)
    ensures ValidateInstanceInput(dateText, teacher) <==>
      (exists k :: 0 <= k < |dateText| && !IsTrimmable(dateText[k])) && teacher.position != 0
  {
    TrimEmptyIff(dateText);
  }

  /** The dialog checks only that a date is present, not that it parses. */
  lemma DialogAcceptsUnparsableDate()
    ensures ValidateInstanceInput("soon", Selection(1, "Ana"))
    ensures ParseDate("soon") == None
  {
    assert Trim("soon") == "soon";
  }

  /** A row as loadInstances reads it back into the list. */
  function InstanceOf(id: int, row: InstanceRow): (c: ClassInstance)
    ensures c.id == id && c.date == row.date && c.teacher == row.teacher && c.comments == row.comments
  {
    ClassInstance(id, row.date, row.teacher, row.comments)
  }

  /**
   * `list` holds each instance of course `courseId` exactly once, as stored,
   * and nothing else.
   */
  ghost predicate ListsInstancesOf(list: seq<ClassInstance>, instances: map<int, InstanceRow>, courseId: int) {
    && (forall i :: 0 <= i < |list| ==>
          list[i].id in instances && instances[list[i].id].courseId == courseId
          && list[i] == InstanceOf(list[i].id, instances[list[i].id]))
    && (forall id :: id in instances && instances[id].courseId == courseId ==>
          exists i :: 0 <= i < |list| && list[i].id == id)
    && (forall i, j :: 0 <= i < j < |list| ==> list[i].id != list[j].id)
  }

  /** The instance id a dialog save writes if it succeeds: the next id when adding, the edited id if it still exists. */
  function SavedInstanceId(editing: Option<ClassInstance>, instances: map<int, InstanceRow>, instanceSeq: int)
    : (w: Option<int>)
    ensures editing.Some? && w.Some? ==> w.value == editing.value.id && w.value in instances
  {
    if editing.None? then (if instanceSeq < MaxRowId then Some(instanceSeq + 1) else None)
    else if editing.value.id in instances then Some(editing.value.id) else None
  }

  class InstanceScreen {
    /** The course whose instances are shown; the screen closes at once without one. */
    const courseId: int
    const requiredDayOfWeek: string
    const store: LocalStore
    const mirror: Mirror
    var instanceList: seq<ClassInstance>

    constructor (courseId: int, requiredDayOfWeek: string, store: LocalStore, mirror: Mirror)
      ensures this.courseId == courseId && this.requiredDayOfWeek == requiredDayOfWeek
      ensures this.store == store && this.mirror == mirror && instanceList == []
    {
      this.courseId := courseId;
      this.requiredDayOfWeek := requiredDayOfWeek;
      this.store := store;
      this.mirror := mirror;
      instanceList := [];
    }

    /**
     * loadInstances: clear the list, then append one entry per row whose
     * `course_id` is this course, in the cursor's (unspecified) order.
     */
    method LoadInstances()
      modifies this
      ensures ListsInstancesOf(instanceList, store.instances, courseId)
    {
      var rows := store.instances;
      var list: seq<ClassInstance> := [];
      var todo := rows.Keys;
      while exists id :: id in todo
        invariant todo <= rows.Keys
        invariant forall i :: 0 <= i < |list| ==>
          list[i].id in rows && list[i].id !in todo && rows[list[i].id].courseId == courseId
          && list[i] == InstanceOf(list[i].id, rows[list[i].id])
        invariant forall id :: id in rows && id !in todo && rows[id].courseId == courseId ==>
          exists i :: 0 <= i < |list| && list[i].id == id
        invariant forall i, j :: 0 <= i < j < |list| ==> list[i].id != list[j].id
        decreases |todo|
      {
        var id :| id in todo;
        if rows[id].courseId == courseId {
          var before := list;
          list := list + [InstanceOf(id, rows[id])];
          assert forall i :: 0 <= i < |before| ==> list[i] == before[i];
          assert list[|list| - 1].id == id;
        }
        todo := todo - {id};
      }
      instanceList := list;
    }

    /** The Save button: validate; when valid, add or update with the trimmed texts and close the dialog. */
    method OnSaveClicked(dateText: string, teacher: Selection<string>, commentsText: string,
                         editing: Option<ClassInstance>, network: bool) returns (dismissed: bool)
      requires store.Valid()
      modifies this, store, mirror
      ensures store.Valid()
      ensures dismissed == ValidateInstanceInput(dateText, teacher)
      ensures !dismissed ==> unchanged(store) && unchanged(mirror) && instanceList == old(instanceList)
      ensures dismissed ==>
        var date, comments := Trim(dateText), Some(Trim(commentsText));
        var w := SavedInstanceId(editing, old(store.instances), old(store.instanceSeq));
        && store.courses == old(store.courses)
        && store.courseSeq == old(store.courseSeq)
        && store.instanceSeq == (if editing.None? && w.Some? then w.value else old(store.instanceSeq))
        && store.instances == (if w.None? then old(store.instances)
             else old(store.instances)[w.value := InstanceRow(
                    if editing.None? then courseId else old(store.instances)[w.value].courseId,
                    date, teacher.item, comments)])
        && mirror.docs == (if w.Some? && network
             then old(mirror.docs)[InstancePath(courseId, w.value) := InstanceDocument(date, teacher.item, comments)]
             else old(mirror.docs))
        && (w.Some? ==> ListsInstancesOf(instanceList, store.instances, courseId))
        && (w.None? ==> instanceList == old(instanceList))
    {
      var dateStr := Trim(dateText);
      var comments := Trim(commentsText);
      dismissed := ValidateInstanceInput(dateText, teacher);
      if dismissed {
        if editing.None? {
          var _ := AddInstanceToDb(dateStr, teacher.item, comments, network);
        } else {
          var _ := UpdateInstanceInDb(editing.value.id, dateStr, teacher.item, comments, network);
        }
      }
    }

    /** addInstanceToDb: insert under this course; on success sync it and reload the list. */
    method AddInstanceToDb(date: string, teacher: string, comments: string, network: bool)
      returns (newRowId: int)
      requires store.Valid()
      modifies this, store, mirror
      ensures store.Valid()
      ensures newRowId == (if old(store.instanceSeq) < MaxRowId then old(store.instanceSeq) + 1 else -1)
      ensures newRowId != -1 ==> newRowId !in old(store.instances)
      ensures store.instances == (if newRowId != -1
        then old(store.instances)[newRowId := InstanceRow(courseId, date, teacher, Some(comments))]
        else old(store.instances))
      ensures store.courses == old(store.courses)
      ensures store.instanceSeq == (if newRowId != -1 then newRowId else old(store.instanceSeq))
      ensures store.courseSeq == old(store.courseSeq)
      ensures mirror.docs == (if newRowId != -1 && network
        then old(mirror.docs)[InstancePath(courseId, newRowId) := InstanceDocument(date, teacher, Some(comments))]
        else old(mirror.docs))
      ensures newRowId != -1 ==> ListsInstancesOf(instanceList, store.instances, courseId)
      ensures newRowId == -1 ==> instanceList == old(instanceList)
    {
      newRowId := store.InsertInstance(InstanceRow(courseId, date, teacher, Some(comments)));
      if newRowId != -1 {
        SyncInstanceToFirestore(newRowId, date, teacher, Some(comments), network);
        LoadInstances();
      }
    }

    /** updateInstanceInDb: rewrite date, teacher and comments; on success sync and reload. */
    method UpdateInstanceInDb(id: int, date: string, teacher: string, comments: string, network: bool)
      returns (count: int)
      requires store.Valid()
      modifies this, store, mirror
      ensures store.Valid()
      ensures count == (if id in old(store.instances) then 1 else 0)
      ensures store.instances == (if count > 0
        then old(store.instances)[id := InstanceRow(old(store.instances)[id].courseId, date, teacher, Some(comments))]
        else old(store.instances))
      ensures store.courses == old(store.courses)
      ensures store.courseSeq == old(store.courseSeq) && store.instanceSeq == old(store.instanceSeq)
      ensures mirror.docs == (if count > 0 && network
        then old(mirror.docs)[InstancePath(courseId, id) := InstanceDocument(date, teacher, Some(comments))]
        else old(mirror.docs))
      ensures count > 0 ==> ListsInstancesOf(instanceList, store.instances, courseId)
      ensures count == 0 ==> instanceList == old(instanceList)
    {
      count := store.UpdateInstance(id, date, teacher, Some(comments));
      if count > 0 {
        SyncInstanceToFirestore(id, date, teacher, Some(comments), network);
        LoadInstances();
      }
    }

    /** deleteInstanceFromDb (after the confirmation dialog): delete; on success sync the deletion and reload. */
    method DeleteInstanceFromDb(id: int, network: bool) returns (deletedRows: int)
      requires store.Valid()
      modifies this, store, mirror
      ensures store.Valid()
      ensures deletedRows == (if id in old(store.instances) then 1 else 0)
      ensures store.instances == old(store.instances) - {id}
      ensures store.courses == old(store.courses)
      ensures store.courseSeq == old(store.courseSeq) && store.instanceSeq == old(store.instanceSeq)
      ensures mirror.docs == (if deletedRows > 0 && network
        then old(mirror.docs) - {InstancePath(courseId, id)} else old(mirror.docs))
      ensures deletedRows > 0 ==> ListsInstancesOf(instanceList, store.instances, courseId)
      ensures deletedRows == 0 ==> instanceList == old(instanceList)
    {
      deletedRows := store.DeleteInstance(id);
      if deletedRows > 0 {
        DeleteInstanceFromFirestore(id, network);
        LoadInstances();
      }
    }

    /** syncInstanceToFirestore: with a network, replace `courses/{courseId}/instances/{instanceId}`. */
    method SyncInstanceToFirestore(instanceId: int, date: string, teacher: string, comments: Option<string>,
                                   network: bool)
      modifies mirror
      ensures mirror.docs == (if network
        then old(mirror.docs)[InstancePath(courseId, instanceId) := InstanceDocument(date, teacher, comments)]
        else old(mirror.docs))
    {
      if !network {
        return;
      }
      mirror.SetDocument(InstancePath(courseId, instanceId), InstanceDocument(date, teacher, comments));
    }

    /** deleteInstanceFromFirestore: with a network, remove that one instance document. */
    method DeleteInstanceFromFirestore(instanceId: int, network: bool)
      modifies mirror
      ensures mirror.docs == (if network then old(mirror.docs) - {InstancePath(courseId, instanceId)}
                              else old(mirror.docs))
    {
      if !network {
        return;
      }
      mirror.DeleteDocument(InstancePath(courseId, instanceId));
    }
  }
}
