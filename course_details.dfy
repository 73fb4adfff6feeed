/**
 * CourseDetailsActivity: the course form's validation, the confirmed save
 * (insert in "add" mode, update in "edit" mode) and the one-document sync.
 */
module CourseDetails {
  import opened Wrappers
  import opened Text
  import opened Forms
  import opened Database
  import opened Remote

  /** The form as the screen reads it; capacity and duration options are numeric items. */
  datatype CourseForm = CourseForm(
    day: Selection<string>,
    time: Selection<string>,
    capacity: Selection<int>,
    duration: Selection<int>,
    classType: Selection<string>,
    priceText: string,
    descriptionText: string)

  /** The field errors validateInput can flag, in the order it checks them. */
  datatype CourseError =
    | DayRequired | TimeRequired | CapacityRequired | DurationRequired | TypeRequired
    | PriceRequired | PriceInvalid | PriceNotPositive | PriceTooHigh

  const MaxPrice: real := 1000.0

  function Pow10(n: nat): (p: nat)
    ensures p >= 1
  {
    if n == 0 then 1 else 10 * Pow10(n - 1)
  }

  /** Digits with an optional fraction (`12`, `12.`, `12.5`, `.5`), at least one digit in all. */
  function UnsignedDecimal(s: string): Option<real> {
    var n := LeadingDigits(s);
    var whole := DigitsValue(s[..n]) as real;
    if n == |s| then (if n > 0 then Some(whole) else None)
    else if s[n] != '.' then None
    else
      var frac := s[n + 1..];
      if AllDigits(frac) && n + |frac| > 0
      then Some(whole + DigitsValue(frac) as real / Pow10(|frac|) as real)
      else None
  }

  /** Double.parseDouble on plain decimal text: it trims, takes an optional sign, then a decimal. */
  function ParseDouble(s: string): Option<real> {
    var t := Trim(s);
    if t != [] && (t[0] == '-' || t[0] == '+') then
      match UnsignedDecimal(t[1..])
      case None => None
      case Some(v) => Some(if t[0] == '-' then -v else v)
    else UnsignedDecimal(t)
  }

  /** parseDouble trims its argument, so trimming first changes nothing. */
  lemma ParseDoubleOfTrimmed(s: string)
    ensures ParseDouble(Trim(s)) == ParseDouble(s)
  {
    TrimIdempotent(s);
  }

  /** The price check on the trimmed text. */
  function PriceErrors(priceText: string): seq<CourseError> {
    var priceStr := Trim(priceText);
    if priceStr == [] then [PriceRequired]
    else match ParseDouble(priceStr)
      case None => [PriceInvalid]
      case Some(price) =>
        if price <= 0.0 then [PriceNotPositive]
        else if price > MaxPrice then [PriceTooHigh]
        else []
  }

  /** validateInput: every check runs, each failing one adds its error. */
  function CourseErrors(form: CourseForm): seq<CourseError> {
    (if form.day.position == 0 then [DayRequired] else [])
    + (if form.time.position == 0 then [TimeRequired] else [])
    + (if form.capacity.position == 0 then [CapacityRequired] else [])
    + (if form.duration.position == 0 then [DurationRequired] else [])
    + (if form.classType.position == 0 then [TypeRequired] else [])
    + PriceErrors(form.priceText)
  }

  /** validateInput's result. */
  predicate ValidateInput(form: CourseForm) {
    CourseErrors(form) == []
  }

  /**
   * The form is accepted exactly when no spinner is on its placeholder and the
   * price text parses to a value in (0, 1000].
   */
  lemma ValidateInputIff(form: CourseForm)
    ensures ValidateInput(form) <==>
      && form.day.position != 0 && form.time.position != 0 && form.capacity.position != 0
      && form.duration.position != 0 && form.classType.position != 0
      && ParseDouble(form.priceText).Some?
      && 0.0 < ParseDouble(form.priceText).value <= MaxPrice
  {
    ParseDoubleOfTrimmed(form.priceText);
    TrimEmptyIff(form.priceText);
    if Trim(form.priceText) == [] {
      assert ParseDouble(Trim(form.priceText)) == None;
    }
  }

  /** Every failing check is reported, and only failing checks are. */
  lemma CourseErrorsComplete(form: CourseForm)
    ensures DayRequired in CourseErrors(form) <==> form.day.position == 0
    ensures TimeRequired in CourseErrors(form) <==> form.time.position == 0
    ensures CapacityRequired in CourseErrors(form) <==> form.capacity.position == 0
    ensures DurationRequired in CourseErrors(form) <==> form.duration.position == 0
    ensures TypeRequired in CourseErrors(form) <==> form.classType.position == 0
    ensures |PriceErrors(form.priceText)| <= 1
  {
  }

  /** The largest accepted price. */
  lemma PriceAtMaximumAccepted()
    ensures PriceErrors("1000") == []
  {
    assert Trim("1000") == "1000";
    LeadingDigitsAll("1000");
    assert "1000"[..4] == "1000";
    assert DigitsValue("1000") == 1000 by {
      assert "1000"[..3] == "100" && "100"[..2] == "10" && "10"[..1] == "1";
    }
  }

  /** The smallest positive price in cents. */
  lemma PriceOneCentAccepted()
    ensures PriceErrors("0.01") == []
  {
  }

  lemma PriceZeroRejected()
    ensures PriceErrors("0") == [PriceNotPositive]
  {
  }

  lemma PriceNegativeRejected()
    ensures PriceErrors("-5") == [PriceNotPositive]
  {
  }

  lemma PriceAboveMaximumRejected()
    ensures PriceErrors("1000.01") == [PriceTooHigh]
  {
    var t := "1000.01";
    assert Trim(t) == t;
    LeadingDigitsOf("1000", ".01");
    assert t == "1000" + ".01";
    assert DigitsValue("1000") == 1000 by {
      assert "1000"[..3] == "100" && "100"[..2] == "10" && "10"[..1] == "1";
    }
    assert t[5..] == "01";
    assert DigitsValue("01") == 1 by {
      assert "01"[..1] == "0";
    }
  }

  lemma PriceBlankRequired()
    ensures PriceErrors("  ") == [PriceRequired]
  {
  }

  lemma PriceWordInvalid()
    ensures PriceErrors("ten") == [PriceInvalid]
  {
  }

  /** Activity.RESULT_OK and the request code the confirmation screen is started with. */
  const ResultOk: int := -1
  const ConfirmationRequestCode: int := 1

  /** The `courses` row saveCourseToDatabase writes: the selected items, the price, the trimmed description. */
  function RowOf(form: CourseForm): (row: CourseRow)
    requires ValidateInput(form)
    ensures 0.0 < row.price <= MaxPrice && Some(row.price) == ParseDouble(form.priceText)
    ensures row.description == Some(Trim(form.descriptionText))
  {
    ValidateInputIff(form);
    CourseRow(form.day.item, form.time.item, form.capacity.item, form.duration.item,
              ParseDouble(form.priceText).value, form.classType.item,
              Some(Trim(form.descriptionText)))
  }

  /**
   * The id of the row a save writes, if the local write succeeds: in "add"
   * mode (courseId == -1) the next id unless the sequence is exhausted, in
   * "edit" mode courseId itself if that row exists.
   */
  function WrittenId(courseId: int, courses: map<int, CourseRow>, courseSeq: int): (w: Option<int>)
    ensures courseId != -1 ==> w == (if courseId in courses then Some(courseId) else None)
  {
    if courseId == -1 then (if courseSeq < MaxRowId then Some(courseSeq + 1) else None)
    else if courseId in courses then Some(courseId) else None
  }

  class CourseDetailsScreen {
    /** -1 in "add" mode, otherwise the id of the course being edited. */
    const courseId: int
    const store: LocalStore
    const mirror: Mirror

    constructor (courseId: int, store: LocalStore, mirror: Mirror)
      ensures this.courseId == courseId && this.store == store && this.mirror == mirror
    {
      this.courseId := courseId;
      this.store := store;
      this.mirror := mirror;
    }

    /**
     * The confirmation screen has returned. Only RESULT_OK for the
     * confirmation request saves; the form was validated before that screen
     * was started.
     */
    method OnActivityResult(requestCode: int, resultCode: int, form: CourseForm, network: bool)
      requires store.Valid() && ValidateInput(form)
      modifies store, mirror
      ensures store.Valid()
      ensures !(requestCode == ConfirmationRequestCode && resultCode == ResultOk) ==>
        unchanged(store) && unchanged(mirror)
      ensures requestCode == ConfirmationRequestCode && resultCode == ResultOk ==>
        var w := WrittenId(courseId, old(store.courses), old(store.courseSeq));
        && store.courses == (if w.Some? then old(store.courses)[w.value := RowOf(form)] else old(store.courses))
        && store.instances == old(store.instances)
        && store.courseSeq == (if courseId == -1 && w.Some? then w.value else old(store.courseSeq))
        && store.instanceSeq == old(store.instanceSeq)
        && mirror.docs == (if w.Some? && network
                           then old(mirror.docs)[CoursePath(w.value) := CourseDocument(RowOf(form))]
                           else old(mirror.docs))
    {
      if requestCode == ConfirmationRequestCode && resultCode == ResultOk {
        SaveCourseToDatabase(form, network);
      }
    }

    /**
     * saveCourseToDatabase: insert or update the row, and only when the local
     * write succeeded, sync that row under the id it was written with.
     */
    method SaveCourseToDatabase(form: CourseForm, network: bool)
      requires store.Valid() && ValidateInput(form)
      modifies store, mirror
      ensures store.Valid()
      ensures var w := WrittenId(courseId, old(store.courses), old(store.courseSeq));
        && store.courses == (if w.Some? then old(store.courses)[w.value := RowOf(form)] else old(store.courses))
        && store.instances == old(store.instances)
        && store.courseSeq == (if courseId == -1 && w.Some? then w.value else old(store.courseSeq))
        && store.instanceSeq == old(store.instanceSeq)
        && mirror.docs == (if w.Some? && network
                           then old(mirror.docs)[CoursePath(w.value) := CourseDocument(RowOf(form))]
                           else old(mirror.docs))
    {
      var values := RowOf(form);
      if courseId == -1 {
        var newRowId := store.InsertCourse(values);
        if newRowId != -1 {
          SyncSingleCourseToFirestore(newRowId, values, network);
        }
      } else {
        var count := store.UpdateCourse(courseId, values);
        if count > 0 {
          SyncSingleCourseToFirestore(courseId, values, network);
        }
      }
    }

    /** With no network nothing is sent; otherwise `courses/{id}` is replaced by the row's seven fields. */
    method SyncSingleCourseToFirestore(id: int, values: CourseRow, network: bool)
      modifies mirror
      ensures mirror.docs == (if network then old(mirror.docs)[CoursePath(id) := CourseDocument(values)]
                              else old(mirror.docs))
    {
      if !network {
        return;
      }
      mirror.SetDocument(CoursePath(id), CourseDocument(values));
    }
  }
}
