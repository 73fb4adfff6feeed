/**
 * DayOfWeekValidator: the date-picker rule that admits only instants whose
 * UTC weekday is the course's, and its Parcelable round trip.
 */
module DayOfWeekValidators {
  import opened Dates

  /** A parcel as this class uses it: it carries the one int written into it. */
  datatype Parcel = Parcel(value: int)

  /** `requiredDayOfWeek` is final: the validator is an immutable value. */
  datatype DayOfWeekValidator = DayOfWeekValidator(requiredDayOfWeek: int) {

    /** isValid: the UTC Calendar.DAY_OF_WEEK of `date` (epoch milliseconds) is the required one. */
    predicate IsValid(date: int) {
      UtcDayOfWeek(date) == requiredDayOfWeek
    }

    /** writeToParcel writes the required day as an int. */
    function WriteToParcel(): (p: Parcel)
      ensures CreateFromParcel(p) == this
    {
      Parcel(requiredDayOfWeek)
    }
  }

  /** CREATOR.createFromParcel: the private constructor reads the int back. */
  function CreateFromParcel(source: Parcel): DayOfWeekValidator {
    DayOfWeekValidator(source.value)
  }

  /** A validator rebuilt from its parcel accepts exactly the same instants. */
  lemma ParcelRoundTrip(v: DayOfWeekValidator, date: int)
    ensures CreateFromParcel(v.WriteToParcel()).IsValid(date) == v.IsValid(date)
  {
  }

  /** The answer depends only on the UTC day: every instant of one day gets the same one. */
  lemma SameDaySameAnswer(v: DayOfWeekValidator, a: int, b: int)
    requires EpochDay(a) == EpochDay(b)
    ensures v.IsValid(a) == v.IsValid(b)
  {
  }

  /** The answer repeats every seven days. */
  lemma WeeklyPeriodic(v: DayOfWeekValidator, date: int)
    ensures v.IsValid(date + 7 * MillisPerDay) == v.IsValid(date)
  {
    var k := EpochDay(date);
    EpochDayOfMidnight(k + 7, date + 7 * MillisPerDay);
  }

  /** A required day outside SUNDAY..SATURDAY (such as the -1 of an unknown day name) admits nothing. */
  lemma OutOfRangeAdmitsNothing(v: DayOfWeekValidator, date: int)
    requires !(Sunday <= v.requiredDayOfWeek <= Saturday)
    ensures !v.IsValid(date)
  {
  }

  /** A required day in SUNDAY..SATURDAY admits the midnight of exactly one day in each week. */
  lemma InRangeAdmitsOneDayPerWeek(v: DayOfWeekValidator, week: int)
    requires Sunday <= v.requiredDayOfWeek <= Saturday
    ensures var day := 7 * week + (v.requiredDayOfWeek + 2) % 7;
      && v.IsValid(day * MillisPerDay)
      && forall k :: 7 * week <= k < 7 * week + 7 && k != day ==> !v.IsValid(k * MillisPerDay)
  {
    var day := 7 * week + (v.requiredDayOfWeek + 2) % 7;
    EpochDayOfMidnight(day, day * MillisPerDay);
    forall k | 7 * week <= k < 7 * week + 7 && k != day
      ensures !v.IsValid(k * MillisPerDay)
    {
      EpochDayOfMidnight(k, k * MillisPerDay);
    }
  }
}
