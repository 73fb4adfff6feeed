/**
 * Calendar arithmetic behind DayOfWeekValidator and isDateValid: UTC epoch
 * days, java.util.Calendar's DAY_OF_WEEK numbering (SUNDAY = 1 ...
 * SATURDAY = 7), proleptic Gregorian dates, and the strict `dd/MM/yyyy`
 * parse of SimpleDateFormat.
 */
module Dates {
  import opened Wrappers
  import opened Text

  const MillisPerDay: int := 86_400_000

  const Sunday: int := 1
  const Monday: int := 2
  const Tuesday: int := 3
  const Wednesday: int := 4
  const Thursday: int := 5
  const Friday: int := 6
  const Saturday: int := 7

  /** Math.floorDiv(ms, MillisPerDay): the UTC day an instant falls in. */
  function EpochDay(ms: int): (day: int)
    ensures day * MillisPerDay <= ms < day * MillisPerDay + MillisPerDay
  {
    ms / MillisPerDay
  }

  /** Calendar.DAY_OF_WEEK of a UTC epoch day; day 0, 1970-01-01, is a Thursday. */
  function WeekdayOfEpochDay(day: int): (w: int)
    ensures Sunday <= w <= Saturday
  {
    (day + 4) % 7 + 1
  }

  /** Calendar.DAY_OF_WEEK of an instant in the UTC time zone. */
  function UtcDayOfWeek(ms: int): (w: int)
    ensures Sunday <= w <= Saturday
  {
    WeekdayOfEpochDay(EpochDay(ms))
  }

  /** The numbering starts on a Thursday and steps through the week one day at a time. */
  lemma WeekdayOfEpochDaySteps(day: int)
    ensures WeekdayOfEpochDay(0) == Thursday
    ensures WeekdayOfEpochDay(day + 1) == (if WeekdayOfEpochDay(day) == Saturday then Sunday
                                           else WeekdayOfEpochDay(day) + 1)
  {
  }

  /** Every instant of a UTC day has that day's weekday, and the day of `k * MillisPerDay` is `k`. */
  lemma EpochDayOfMidnight(k: int, ms: int)
    requires k * MillisPerDay <= ms < k * MillisPerDay + MillisPerDay
    ensures EpochDay(ms) == k
    ensures UtcDayOfWeek(ms) == WeekdayOfEpochDay(k)
  {
  }

  // ---- Gregorian calendar dates ----

  datatype Date = Date(year: int, month: int, day: int)

  predicate IsLeapYear(y: int) {
    y % 4 == 0 && (y % 100 != 0 || y % 400 == 0)
  }

  function DaysInYear(y: int): int {
    if IsLeapYear(y) then 366 else 365
  }

  function DaysInMonth(y: int, m: int): (n: int)
    requires 1 <= m <= 12
    ensures 28 <= n <= 31
  {
    if m == 2 then (if IsLeapYear(y) then 29 else 28)
    else if m == 4 || m == 6 || m == 9 || m == 11 then 30
    else 31
  }

  /** What a non-lenient GregorianCalendar accepts: a year of the common era, a month, a day of that month. */
  predicate IsValidDate(d: Date) {
    d.year >= 1 && 1 <= d.month <= 12 && 1 <= d.day <= DaysInMonth(d.year, d.month)
  }

  /** Days from 0001-01-01 to January 1st of year `y`. */
  function DaysBeforeYear(y: int): int
    requires y >= 1
  {
    var p := y - 1;
    365 * p + p / 4 - p / 100 + p / 400
  }

  /** Days from January 1st to the first of month `m`. */
  function DaysBeforeMonth(y: int, m: int): int
    requires 1 <= m <= 12
  {
    [0, 31, 59, 90, 120, 151, 181, 212, 243, 273, 304, 334][m - 1]
      + (if m > 2 && IsLeapYear(y) then 1 else 0)
  }

  /** The UTC epoch day of a date (0 is 1970-01-01). */
  function EpochDayOf(d: Date): int
    requires IsValidDate(d)
  {
    DaysBeforeYear(d.year) + DaysBeforeMonth(d.year, d.month) + d.day - 1 - 719_162
  }

  function WeekdayOf(d: Date): (w: int)
    requires IsValidDate(d)
    ensures Sunday <= w <= Saturday
  {
    WeekdayOfEpochDay(EpochDayOf(d))
  }

  /** The calendar day after `d`. */
  function NextDate(d: Date): Date
    requires IsValidDate(d)
  {
    if d.day < DaysInMonth(d.year, d.month) then Date(d.year, d.month, d.day + 1)
    else if d.month < 12 then Date(d.year, d.month + 1, 1)
    else Date(d.year + 1, 1, 1)
  }

  lemma Step4(p: int)
    ensures (p + 1) / 4 == p / 4 + (if (p + 1) % 4 == 0 then 1 else 0)
  {
  }

  lemma Step100(p: int)
    ensures (p + 1) / 100 == p / 100 + (if (p + 1) % 100 == 0 then 1 else 0)
  {
  }

  lemma Step400(p: int)
    ensures (p + 1) / 400 == p / 400 + (if (p + 1) % 400 == 0 then 1 else 0)
  {
  }

  /** A year holds 366 days when it is a leap year and 365 otherwise. */
  lemma DaysBeforeNextYear(y: int)
    requires y >= 1
    ensures DaysBeforeYear(y + 1) == DaysBeforeYear(y) + DaysInYear(y)
  {
    var p := y - 1;
    Step4(p);
    Step100(p);
    Step400(p);
    if y % 400 == 0 {
      Multiple400(y);
    }
    if y % 100 == 0 {
      Multiple100(y);
    }
    var leaps := (if y % 4 == 0 then 1 else 0) - (if y % 100 == 0 then 1 else 0) + (if y % 400 == 0 then 1 else 0);
    assert DaysBeforeYear(y + 1) == DaysBeforeYear(y) + 365 + leaps;
    assert leaps == (if IsLeapYear(y) then 1 else 0);
  }

  /** Multiples of 400 are multiples of 100. */
  lemma Multiple400(y: int)
    requires y % 400 == 0
    ensures y % 100 == 0
  {
    var m := 4 * (y / 400);
    assert y == 100 * m;
  }

  /** Multiples of 100 are multiples of 4. */
  lemma Multiple100(y: int)
    requires y % 100 == 0
    ensures y % 4 == 0
  {
    var m := 25 * (y / 100);
    assert y == 4 * m;
  }

  /** Consecutive calendar days have consecutive epoch days. */
  lemma NextDateIsNextDay(d: Date)
    requires IsValidDate(d)
    ensures IsValidDate(NextDate(d))
    ensures EpochDayOf(NextDate(d)) == EpochDayOf(d) + 1
  {
    if d.day == DaysInMonth(d.year, d.month) && d.month == 12 {
      DaysBeforeNextYear(d.year);
    }
  }

  lemma EpochStartsOn19700101()
    ensures EpochDayOf(Date(1970, 1, 1)) == 0
    ensures WeekdayOf(Date(1970, 1, 1)) == Thursday
  {
  }

  /** SimpleDateFormat("EEEE", Locale.ENGLISH): the full English day name. */
  function WeekdayName(w: int): (name: string)
    requires Sunday <= w <= Saturday
  {
    ["Sunday", "Monday", "Tuesday", "Wednesday", "Thursday", "Friday", "Saturday"][w - 1]
  }

  // ---- "dd/MM/yyyy" ----

  /** The largest YEAR a non-lenient GregorianCalendar accepts. */
  const MaxYear: int := 292_278_994

  /** A date a non-lenient GregorianCalendar can hold: a real calendar date no later than MaxYear. */
  predicate IsCalendarDate(d: Date) {
    IsValidDate(d) && d.year <= MaxYear
  }

  /** SimpleDateFormat skips spaces and tabs before each numeric field. */
  predicate IsBlank(c: char) {
    c == ' ' || c == '\t'
  }

  predicate AllBlanks(s: string) {
    forall i :: 0 <= i < |s| ==> IsBlank(s[i])
  }

  function SkipBlanks(s: string): string {
    if s != [] && IsBlank(s[0]) then SkipBlanks(s[1..]) else s
  }

  /** Skipping drops exactly a leading run of blanks. */
  lemma {:induction false} SkipBlanksOf(b: string, s: string)
    requires AllBlanks(b)
    requires s == [] || !IsBlank(s[0])
    ensures SkipBlanks(b + s) == s
    decreases |b|
  {
    if b == [] {
      assert b + s == s;
    } else {
      assert (b + s)[1..] == b[1..] + s;
      SkipBlanksOf(b[1..], s);
    }
  }

  /** Blanks, a digit run, then '/': the run's value and the text after the slash. */
  function SlashField(s: string): Option<(nat, string)> {
    var t := SkipBlanks(s);
    var n := LeadingDigits(t);
    if n == 0 || n == |t| || t[n] != '/' then None else Some((DigitsValue(t[..n]), t[n + 1..]))
  }

  /** Blanks, then a digit run: its value; the text after it is not looked at. */
  function LastField(s: string): Option<nat> {
    var t := SkipBlanks(s);
    var n := LeadingDigits(t);
    if n == 0 then None else Some(DigitsValue(t[..n]))
  }

  /**
   * SimpleDateFormat("dd/MM/yyyy") with setLenient(false), parsing from the
   * start of the text: each of the three numeric fields may be preceded by
   * spaces and tabs and is a digit run of any length ("yyyy" reads the year
   * literally); the fields are separated by '/' exactly, and whatever follows
   * the year is ignored. The fields must form a date the calendar can hold.
   */
  function ParseDate(s: string): (r: Option<Date>)
    ensures r.Some? ==> IsCalendarDate(r.value)
  {
    match SlashField(s)
    case None => None
    case Some((day, rest1)) =>
      match SlashField(rest1)
      case None => None
      case Some((month, rest2)) =>
        match LastField(rest2)
        case None => None
        case Some(year) =>
          var d := Date(year, month, day);
          if IsCalendarDate(d) then Some(d) else None
  }

  /** SimpleDateFormat("dd/MM/yyyy").format: two-digit day and month, year of at least four digits. */
  function FormatDate(d: Date): string
    requires IsValidDate(d)
  {
    Padded(d.day, 2) + "/" + Padded(d.month, 2) + "/" + Padded(d.year, 4)
  }

  /** Blanks, a digit run and '/' are read as one field. */
  lemma SlashFieldOf(b: string, x: string, y: string)
    requires AllBlanks(b) && x != [] && AllDigits(x)
    ensures SlashField(b + x + "/" + y) == Some((DigitsValue(x), y))
  {
    var s := x + ("/" + y);
    assert s[0] == x[0];
    assert b + x + "/" + y == b + s;
    SkipBlanksOf(b, s);
    LeadingDigitsOf(x, "/" + y);
    assert s[|x| + 1..] == y;
  }

  /** Blanks and a digit run followed by a non-digit (or nothing) are read as the last field. */
  lemma LastFieldOf(b: string, x: string, rest: string)
    requires AllBlanks(b) && x != [] && AllDigits(x)
    requires rest == [] || !IsDigit(rest[0])
    ensures LastField(b + x + rest) == Some(DigitsValue(x))
  {
    var s := x + rest;
    assert s[0] == x[0];
    assert b + x + rest == b + s;
    SkipBlanksOf(b, s);
    if rest == [] {
      assert s == x;
      LeadingDigitsAll(x);
      assert x[..|x|] == x;
    } else {
      LeadingDigitsOf(x, rest);
    }
  }

  /** ParseDate reads its three fields one after the other. */
  lemma ParseDateSteps(s: string, day: nat, rest1: string, month: nat, rest2: string, year: nat)
    requires SlashField(s) == Some((day, rest1))
    requires SlashField(rest1) == Some((month, rest2))
    requires LastField(rest2) == Some(year)
    ensures ParseDate(s) == (var d := Date(year, month, day); if IsCalendarDate(d) then Some(d) else None)
  {
  }

  /**
   * Three digit runs, each after its own (possibly empty) run of blanks and
   * separated by slashes, parse field by field; whatever follows the third
   * run (if it does not start with a digit) is ignored.
   */
  lemma ParseDateFields(ba: string, a: string, bb: string, b: string, bc: string, c: string, rest: string)
    requires AllBlanks(ba) && AllBlanks(bb) && AllBlanks(bc)
    requires a != [] && AllDigits(a) && b != [] && AllDigits(b) && c != [] && AllDigits(c)
    requires rest == [] || !IsDigit(rest[0])
    ensures ParseDate(ba + a + "/" + bb + b + "/" + bc + c + rest)
      == (var d := Date(DigitsValue(c), DigitsValue(b), DigitsValue(a));
          if IsCalendarDate(d) then Some(d) else None)
  {
    var rest2 := bc + c + rest;
    var rest1 := bb + b + "/" + rest2;
    var s := ba + a + "/" + bb + b + "/" + bc + c + rest;
    assert s == ba + a + "/" + rest1;
    SlashFieldOf(ba, a, rest1);
    SlashFieldOf(bb, b, rest2);
    LastFieldOf(bc, c, rest);
    ParseDateSteps(s, DigitsValue(a), rest1, DigitsValue(b), rest2, DigitsValue(c));
  }

  /** Text after the year is ignored, as DateFormat.parse(String) does. */
  lemma ParseIgnoresTrailingText(d: Date, rest: string)
    requires IsCalendarDate(d)
    requires rest == [] || !IsDigit(rest[0])
    ensures ParseDate(FormatDate(d) + rest) == Some(d)
  {
    var a, b, c := Padded(d.day, 2), Padded(d.month, 2), Padded(d.year, 4);
    assert FormatDate(d) + rest == [] + a + "/" + [] + b + "/" + [] + c + rest;
    ParseDateFields([], a, [], b, [], c, rest);
    PaddedValue(d.day, 2);
    PaddedValue(d.month, 2);
    PaddedValue(d.year, 4);
  }

  /** Formatting a date and parsing the text back gives the same date. */
  lemma ParseFormattedDate(d: Date)
    requires IsCalendarDate(d)
    ensures ParseDate(FormatDate(d)) == Some(d)
  {
    assert FormatDate(d) == FormatDate(d) + [];
    ParseIgnoresTrailingText(d, []);
  }

  /** Non-lenient parsing: a day past the end of its month is refused rather than rolled over. */
  lemma StrictParseRejectsFebruary31()
    ensures ParseDate("31/02/2024") == None
  {
    assert "31/02/2024" == [] + "31" + "/" + [] + "02" + "/" + [] + "2024" + [];
    ParseDateFields([], "31", [], "02", [], "2024", []);
    assert DigitsValue("31") == 31 by {
      assert "31"[..1] == "3";
    }
    assert DigitsValue("02") == 2 by {
      assert "02"[..1] == "0";
    }
  }

  /** Blanks before any of the three fields are skipped. */
  lemma ParseSkipsBlanks()
    ensures ParseDate(" 05/ 03/\t2024") == Some(Date(2024, 3, 5))
  {
    assert " 05/ 03/\t2024" == " " + "05" + "/" + " " + "03" + "/" + "\t" + "2024" + [];
    ParseDateFields(" ", "05", " ", "03", "\t", "2024", []);
    assert DigitsValue("05") == 5 by {
      assert "05"[..1] == "0";
    }
    assert DigitsValue("03") == 3 by {
      assert "03"[..1] == "0";
    }
    assert DigitsValue("2024") == 2024 by {
      assert "2024"[..3] == "202" && "202"[..2] == "20" && "20"[..1] == "2";
    }
  }

  /** A year past MaxYear is refused, as a non-lenient GregorianCalendar refuses it. */
  lemma ParseRejectsYearBeyondCalendar(d: Date)
    requires IsValidDate(d) && d.year > MaxYear
    ensures ParseDate(FormatDate(d)) == None
  {
    var a, b, c := Padded(d.day, 2), Padded(d.month, 2), Padded(d.year, 4);
    assert FormatDate(d) == [] + a + "/" + [] + b + "/" + [] + c + [];
    ParseDateFields([], a, [], b, [], c, []);
    PaddedValue(d.day, 2);
    PaddedValue(d.month, 2);
    PaddedValue(d.year, 4);
  }
}
