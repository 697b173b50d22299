/**
 * Migration file names: the timestamp check over the date algorithms of section 21.4.1 of ECMA-262, with local time
 * taken to be UTC.
 */
module MigrationTimestamp {
  import opened Text

  // ---------------------------------------------------------------------------
  // Day numbers and time values (ECMA-262 section 21.4.1)
  // ---------------------------------------------------------------------------

  predicate IsLeap(y: int) {
    y % 4 == 0 && (y % 100 != 0 || y % 400 == 0)
  }

  /** Number of the first day of year `y`; day 0 is 1 January 1970. */
  function DayFromYear(y: int): int {
    365 * (y - 1970) + (y - 1969) / 4 - (y - 1901) / 100 + (y - 1601) / 400
  }

  function DaysInYear(y: int): int {
    if IsLeap(y) then 366 else 365
  }

  /** One year adds 366 days when it is a leap year and 365 otherwise. */
  lemma YearLength(y: int)
    ensures DayFromYear(y + 1) == DayFromYear(y) + DaysInYear(y)
  {
    Every4(y);
    Every100(y);
    Every400(y);
    Divides(y);
  }

  lemma Every4(y: int)
    ensures (y - 1968) / 4 == (y - 1969) / 4 + if y % 4 == 0 then 1 else 0
  {
  }

  lemma Every100(y: int)
    ensures (y - 1900) / 100 == (y - 1901) / 100 + if y % 100 == 0 then 1 else 0
  {
  }

  lemma Every400(y: int)
    ensures (y - 1600) / 400 == (y - 1601) / 400 + if y % 400 == 0 then 1 else 0
  {
  }

  lemma Divides(y: int)
    ensures y % 400 == 0 ==> y % 100 == 0
    ensures y % 100 == 0 ==> y % 4 == 0
  {
  }

  /** The largest year whose first day is not after `day`, searched from `y`. */
  function YearFrom(day: int, y: int): (r: int)
    ensures DayFromYear(r) <= day < DayFromYear(r + 1)
    decreases if day < DayFromYear(y) then DayFromYear(y) - day else day - DayFromYear(y) + 1
  {
    hide DayFromYear;
    YearLength(y);
    YearLength(y - 1);
    if day < DayFromYear(y) then
      if day >= DayFromYear(y - 1) then y - 1 else YearFrom(day, y - 1)
    else if day >= DayFromYear(y + 1) then YearFrom(day, y + 1)
    else y
  }

  function YearFromDay(day: int): (r: int)
    ensures DayFromYear(r) <= day < DayFromYear(r + 1)
  {
    YearFrom(day, 1970)
  }

  /** Days of the year before month `m`, which counts from 0; month 12 is the whole year. */
  function DaysBeforeMonth(m: int, leap: bool): int {
    var common :=
      if m <= 0 then 0 else if m == 1 then 31 else if m == 2 then 59 else if m == 3 then 90
      else if m == 4 then 120 else if m == 5 then 151 else if m == 6 then 181 else if m == 7 then 212
      else if m == 8 then 243 else if m == 9 then 273 else if m == 10 then 304 else if m == 11 then 334 else 365;
    if leap && m >= 2 then common + 1 else common
  }

  /** The month, from 0, of a day within a year. */
  function MonthOf(dayInYear: int, leap: bool): (m: int)
    requires 0 <= dayInYear < if leap then 366 else 365
    ensures 0 <= m <= 11
    ensures DaysBeforeMonth(m, leap) <= dayInYear < DaysBeforeMonth(m + 1, leap)
  {
    if dayInYear < DaysBeforeMonth(1, leap) then 0
    else if dayInYear < DaysBeforeMonth(2, leap) then 1
    else if dayInYear < DaysBeforeMonth(3, leap) then 2
    else if dayInYear < DaysBeforeMonth(4, leap) then 3
    else if dayInYear < DaysBeforeMonth(5, leap) then 4
    else if dayInYear < DaysBeforeMonth(6, leap) then 5
    else if dayInYear < DaysBeforeMonth(7, leap) then 6
    else if dayInYear < DaysBeforeMonth(8, leap) then 7
    else if dayInYear < DaysBeforeMonth(9, leap) then 8
    else if dayInYear < DaysBeforeMonth(10, leap) then 9
    else if dayInYear < DaysBeforeMonth(11, leap) then 10
    else 11
  }

  datatype Fields = Fields(year: int, month: int, day: int, hour: int, minute: int, second: int)

  /** MakeDay: months outside 0..11 carry into the year, and any day offset is simply added. */
  function MakeDay(year: int, month: int, date: int): int {
    var y := year + month / 12;
    DayFromYear(y) + DaysBeforeMonth(month % 12, IsLeap(y)) + date - 1
  }

  function MakeTime(hour: int, minute: int, second: int): int {
    hour * 3600000 + minute * 60000 + second * 1000
  }

  function MakeDate(day: int, time: int): int {
    day * 86400000 + time
  }

  function Day(t: int): int {
    t / 86400000
  }

  function TimeWithinDay(t: int): int {
    t % 86400000
  }

  function HourFromTime(t: int): int {
    TimeWithinDay(t) / 3600000
  }

  function MinFromTime(t: int): int {
    TimeWithinDay(t) / 60000 % 60
  }

  function SecFromTime(t: int): int {
    TimeWithinDay(t) / 1000 % 60
  }

  /** The six-argument Date constructor; two-digit years mean the twentieth century. */
  function DateOf(year: int, month: int, date: int, hour: int, minute: int, second: int): int {
    var y := if 0 <= year <= 99 then 1900 + year else year;
    MakeDate(MakeDay(y, month, date), MakeTime(hour, minute, second))
  }

  /** Year, month (from 0) and day of the month of a day number. */
  function CivilDate(day: int): (int, int, int) {
    var y := YearFromDay(day);
    YearLength(y);
    var inYear := day - DayFromYear(y);
    var m := MonthOf(inYear, IsLeap(y));
    (y, m, inYear - DaysBeforeMonth(m, IsLeap(y)) + 1)
  }

  /** What the six getters read back from a time value; the month counts from 0. */
  function ReadBack(t: int): Fields {
    var date := CivilDate(Day(t));
    Fields(date.0, date.1, date.2, HourFromTime(t), MinFromTime(t), SecFromTime(t))
  }

  // ---------------------------------------------------------------------------
  // The timestamp check
  // ---------------------------------------------------------------------------

  datatype Timestamp = Invalid | Valid(time: int)

  function Seconds(s: string): int
    requires |s| >= 12
  {
    if |s| >= 14 then ParseInt(s[12..14]) else 0
  }

  /** The calendar fields that a timestamp string names; the month counts from 1. */
  function Named(s: string): Fields
    requires |s| >= 12
  {
    Fields(ParseInt(s[0..4]), ParseInt(s[4..6]), ParseInt(s[6..8]), ParseInt(s[8..10]), ParseInt(s[10..12]), Seconds(s))
  }

  /** The range checks, the Date constructor and the six read-back comparisons. */
  function CheckFields(f: Fields): Timestamp {
    if f.month < 1 || f.month > 12 then Invalid
    else if f.day < 1 || f.day > 31 then Invalid
    else if f.hour < 0 || f.hour > 23 then Invalid
    else if f.minute < 0 || f.minute > 59 then Invalid
    else if f.second < 0 || f.second > 59 then Invalid
    else
      var date := DateOf(f.year, f.month - 1, f.day, f.hour, f.minute, f.second);
      var back := ReadBack(date);
      if back.year != f.year || back.month != f.month - 1 || back.day != f.day
         || back.hour != f.hour || back.minute != f.minute || back.second != f.second
      then Invalid
      else Valid(date)
  }

  function ParseTimestamp(s: string): Timestamp
    requires |s| >= 12
  {
    CheckFields(Named(s))
  }

  // ---------------------------------------------------------------------------
  // The Gregorian calendar
  // ---------------------------------------------------------------------------

  function DaysInMonth(y: int, m: int): int {
    if m == 2 then if IsLeap(y) then 29 else 28
    else if m == 4 || m == 6 || m == 9 || m == 11 then 30
    else 31
  }

  /** A real Gregorian date and time of day. */
  predicate RealDate(f: Fields) {
    && 1 <= f.month <= 12 && 1 <= f.day <= DaysInMonth(f.year, f.month)
    && 0 <= f.hour <= 23 && 0 <= f.minute <= 59 && 0 <= f.second <= 59
  }

  lemma MonthLength(y: int, m: int)
    requires 0 <= m <= 11
    ensures DaysBeforeMonth(m + 1, IsLeap(y)) == DaysBeforeMonth(m, IsLeap(y)) + DaysInMonth(y, m + 1)
  {
  }

  lemma {:induction false} YearsGrow(a: int, b: int)
    requires a <= b
    ensures DayFromYear(a) + 365 * (b - a) <= DayFromYear(b)
    decreases b - a
  {
    if a < b {
      YearLength(b - 1);
      YearsGrow(a, b - 1);
    }
  }

  /** A day belongs to one year only. */
  lemma YearIsUnique(day: int, y: int)
    requires DayFromYear(y) <= day < DayFromYear(y + 1)
    ensures YearFromDay(day) == y
  {
    var r := YearFromDay(day);
    if r < y {
      YearsGrow(r + 1, y);
    } else if y < r {
      YearsGrow(y + 1, r);
    }
  }

  lemma MonthsGrow(a: int, b: int, leap: bool)
    requires 0 <= a <= b <= 12
    ensures DaysBeforeMonth(a, leap) <= DaysBeforeMonth(b, leap)
  {
  }

  lemma MonthIsUnique(inYear: int, leap: bool, m: int)
    requires 0 <= m <= 11 && DaysBeforeMonth(m, leap) <= inYear < DaysBeforeMonth(m + 1, leap)
    ensures 0 <= inYear < (if leap then 366 else 365)
    ensures MonthOf(inYear, leap) == m
  {
    MonthsGrow(0, m, leap);
    MonthsGrow(m + 1, 12, leap);
    var r := MonthOf(inYear, leap);
    if r < m {
      MonthsGrow(r + 1, m, leap);
    } else if m < r {
      MonthsGrow(m + 1, r, leap);
    }
  }

  /** The day number of a real date. */
  function DayNumber(y: int, m: int, d: int): int {
    DayFromYear(y) + DaysBeforeMonth(m - 1, IsLeap(y)) + d - 1
  }

  /** The instant of a real date, in milliseconds. */
  function Instant(f: Fields): int {
    MakeDate(DayNumber(f.year, f.month, f.day), MakeTime(f.hour, f.minute, f.second))
  }

  lemma DayNumberInYear(y: int, m: int, d: int)
    requires 1 <= m <= 12 && 1 <= d <= DaysInMonth(y, m)
    ensures DaysBeforeMonth(m - 1, IsLeap(y)) <= DayNumber(y, m, d) - DayFromYear(y) < DaysBeforeMonth(m, IsLeap(y))
    ensures DayFromYear(y) <= DayNumber(y, m, d) < DayFromYear(y + 1)
    ensures DayNumber(y, m, d) - DayFromYear(y) - DaysBeforeMonth(m - 1, IsLeap(y)) + 1 == d
  {
    MonthLength(y, m - 1);
    MonthsGrow(0, m - 1, IsLeap(y));
    MonthsGrow(m, 12, IsLeap(y));
    YearLength(y);
  }

  lemma DayPart(day: int, ms: int)
    requires 0 <= ms < 86400000
    ensures (day * 86400000 + ms) / 86400000 == day && (day * 86400000 + ms) % 86400000 == ms
  {
  }

  lemma HourPart(hour: int, rest: int)
    requires 0 <= rest < 3600000
    ensures (hour * 3600000 + rest) / 3600000 == hour
  {
  }

  lemma MinutePart(hour: int, minute: int, rest: int)
    requires 0 <= rest < 60000 && 0 <= minute <= 59
    ensures (hour * 3600000 + minute * 60000 + rest) / 60000 % 60 == minute
  {
    assert hour * 3600000 + minute * 60000 + rest == (hour * 60 + minute) * 60000 + rest;
    assert ((hour * 60 + minute) * 60000 + rest) / 60000 == hour * 60 + minute;
  }

  lemma SecondPart(minutes: int, second: int)
    requires 0 <= second <= 59
    ensures (minutes * 60000 + second * 1000) / 1000 % 60 == second
  {
    assert (minutes * 60000 + second * 1000) / 1000 == minutes * 60 + second;
  }

  /** A day number and a time of day can be read back from the time value made of them. */
  lemma TimeParts(day: int, hour: int, minute: int, second: int)
    requires 0 <= hour <= 23 && 0 <= minute <= 59 && 0 <= second <= 59
    ensures var t := MakeDate(day, MakeTime(hour, minute, second));
            Day(t) == day && HourFromTime(t) == hour && MinFromTime(t) == minute && SecFromTime(t) == second
  {
    var ms := MakeTime(hour, minute, second);
    DayPart(day, ms);
    assert TimeWithinDay(MakeDate(day, ms)) == ms;
    hide TimeWithinDay, MakeDate;
    HourPart(hour, minute * 60000 + second * 1000);
    MinutePart(hour, minute, second * 1000);
    SecondPart(hour * 60 + minute, second);
    assert ms == (hour * 60 + minute) * 60000 + second * 1000;
  }

  lemma TimesOfDay(t: int)
    ensures 0 <= HourFromTime(t) <= 23 && 0 <= MinFromTime(t) <= 59 && 0 <= SecFromTime(t) <= 59
  {
    var ms := TimeWithinDay(t);
    assert 0 <= ms < 86400000;
    hide TimeWithinDay;
  }

  lemma CivilDateOfReal(y: int, m: int, d: int)
    requires 1 <= m <= 12 && 1 <= d <= DaysInMonth(y, m)
    ensures CivilDate(DayNumber(y, m, d)) == (y, m - 1, d)
  {
    hide DayFromYear, DaysBeforeMonth, MonthOf, YearFromDay, IsLeap, DayNumber, DaysInMonth;
    DayNumberInYear(y, m, d);
    YearIsUnique(DayNumber(y, m, d), y);
    MonthIsUnique(DayNumber(y, m, d) - DayFromYear(y), IsLeap(y), m - 1);
  }

  /** Reading back a real date gives the date. */
  lemma ReadBackOfReal(f: Fields)
    requires RealDate(f)
    ensures ReadBack(Instant(f)) == f.(month := f.month - 1)
  {
    hide DayNumber, MakeTime, MakeDate, CivilDate, Day, HourFromTime, MinFromTime, SecFromTime;
    TimeParts(DayNumber(f.year, f.month, f.day), f.hour, f.minute, f.second);
    CivilDateOfReal(f.year, f.month, f.day);
  }

  lemma CivilDateIsReal(day: int)
    ensures var date := CivilDate(day); 0 <= date.1 <= 11 && 1 <= date.2 <= DaysInMonth(date.0, date.1 + 1)
  {
    hide DayFromYear, DaysBeforeMonth, YearFromDay;
    var y := YearFromDay(day);
    YearLength(y);
    MonthLength(y, MonthOf(day - DayFromYear(y), IsLeap(y)));
  }

  /** Whatever is read back is a real date. */
  lemma ReadBackIsReal(t: int)
    ensures var b := ReadBack(t); RealDate(b.(month := b.month + 1))
  {
    hide CivilDate, DaysInMonth, Day, HourFromTime, MinFromTime, SecFromTime;
    CivilDateIsReal(Day(t));
    TimesOfDay(t);
  }

  /** The day number of a real date is what MakeDay computes. */
  lemma MakeDayIsDayNumber(y: int, m: int, d: int)
    requires 1 <= m <= 12
    ensures MakeDay(y, m - 1, d) == DayNumber(y, m, d)
  {
    assert (m - 1) / 12 == 0 && (m - 1) % 12 == m - 1;
  }

  lemma DigitsBound(s: string)
    requires AllDigits(s)
    ensures ParseInt(s) >= 0
    ensures |s| == 2 ==> ParseInt(s) <= 99
    ensures |s| == 4 ==> ParseInt(s) <= 9999
  {
    if s != "" {
      DigitsBound(s[..|s| - 1]);
      if |s| == 4 {
        DigitsBound(s[..2]);
        assert s[..3][..2] == s[..2];
      }
    }
  }

  lemma RealFieldsAreValid(f: Fields)
    requires f.year >= 100 && RealDate(f)
    ensures CheckFields(f) == Valid(Instant(f))
  {
    hide ReadBack, MakeDay, DayNumber, MakeTime, MakeDate;
    ReadBackOfReal(f);
    MakeDayIsDayNumber(f.year, f.month, f.day);
  }

  lemma ValidFieldsAreReal(f: Fields)
    requires f.year >= 0
    ensures CheckFields(f).Valid? ==> f.year >= 100 && RealDate(f)
  {
    hide ReadBack, DateOf, DaysInMonth;
    ReadBackIsReal(DateOf(f.year, f.month - 1, f.day, f.hour, f.minute, f.second));
    if f.year < 100 && CheckFields(f).Valid? {
      EarlyYearsShift(f);
    }
  }

  lemma EarlyYearsShift(f: Fields)
    requires 0 <= f.year < 100 && 1 <= f.month <= 12 && f.day >= 1
    requires 0 <= f.hour <= 23 && 0 <= f.minute <= 59 && 0 <= f.second <= 59
    ensures ReadBack(DateOf(f.year, f.month - 1, f.day, f.hour, f.minute, f.second)).year >= 1900
  {
    hide ReadBack, MakeDay, DayNumber, MakeTime, MakeDate;
    var shifted := f.(year := 1900 + f.year);
    MakeDayIsDayNumber(shifted.year, f.month, f.day);
    TwoDigitYears(shifted);
  }

  /**
   * Calendar exactness, for every digit string of 12 or 14 digits: the check says valid exactly when the year is at
   * least 100 and the string names a real Gregorian date and time; and then the time value is that instant.
   */
  lemma CalendarExact(s: string)
    requires AllDigits(s) && (|s| == 12 || |s| == 14)
    ensures ParseTimestamp(s).Valid? <==> Named(s).year >= 100 && RealDate(Named(s))
    ensures ParseTimestamp(s).Valid? ==> ParseTimestamp(s).time == Instant(Named(s))
  {
    hide CheckFields, ParseInt, RealDate, Instant;
    var f := Named(s);
    DigitsBound(s[0..4]);
    if CheckFields(f).Valid? {
      ValidFieldsAreReal(f);
    }
    if f.year >= 100 && RealDate(f) {
      RealFieldsAreValid(f);
    }
  }

  const EARLY := "000001010000"

  lemma EarlyFields()
    ensures Named(EARLY) == Fields(0, 1, 1, 0, 0, 0) && AllDigits(EARLY)
  {
    hide ParseInt;
    assert EARLY[0..4] == "00" + "00" && EARLY[4..6] == "01" && EARLY[6..8] == "01" && EARLY[8..10] == "00" && EARLY[10..12] == "00";
    FourZeros();
    TwoDigits("00");
    TwoDigits("01");
  }

  lemma FourZeros()
    ensures ParseInt("00" + "00") == 0
  {
    var s := "00" + "00";
    assert s[..3] == "000" && s[..3][..2] == "00" && s[..3][..2][..1] == "0" && s[..3][..2][..1][..0] == "";
    assert ParseInt(s[..3][..2][..1]) == 0;
    assert ParseInt(s[..3][..2]) == 0;
    assert ParseInt(s[..3]) == 0;
  }

  /** A concrete early date: 1 January of the year 0 is a real date and yet invalid. */
  lemma EarlyYearIsRejected()
    ensures RealDate(Named(EARLY)) && ParseTimestamp(EARLY) == Invalid
  {
    hide Named, ParseTimestamp, AllDigits;
    EarlyFields();
    CalendarExact(EARLY);
  }

  /** A date in the twentieth century never reads back a year before 100. */
  lemma TwoDigitYears(f: Fields)
    requires f.year >= 1900 && 1 <= f.month <= 12 && f.day >= 1
    requires 0 <= f.hour <= 23 && 0 <= f.minute <= 59 && 0 <= f.second <= 59
    ensures ReadBack(Instant(f)).year >= 1900
  {
    hide MakeTime, MakeDate, Day, HourFromTime, MinFromTime, SecFromTime, YearFromDay, DayFromYear, DayNumber;
    var day := DayNumber(f.year, f.month, f.day);
    TimeParts(day, f.hour, f.minute, f.second);
    YearsGrow(1900, f.year);
    NotBeforeYear(f.year, f.month, f.day);
    if YearFromDay(day) < 1900 {
      YearsGrow(YearFromDay(day) + 1, 1900);
    }
  }

  lemma NotBeforeYear(y: int, m: int, d: int)
    requires 1 <= m <= 12 && d >= 1
    ensures DayNumber(y, m, d) >= DayFromYear(y)
  {
    hide DayFromYear;
    MonthsGrow(0, m - 1, IsLeap(y));
  }

  // ---------------------------------------------------------------------------
  // One order
  // ---------------------------------------------------------------------------

  /** String comparison by code units, as `<` on strings does it. */
  predicate LexLess(a: string, b: string) {
    if a == "" then b != ""
    else if b == "" then false
    else if a[0] != b[0] then a[0] < b[0]
    else LexLess(a[1..], b[1..])
  }

  /** Twelve digits mean seconds 00. */
  function Padded(s: string): string {
    if |s| == 12 then s + "00" else s
  }

  predicate FieldsLess(a: Fields, b: Fields) {
    || a.year < b.year
    || (a.year == b.year &&
        (|| a.month < b.month
         || (a.month == b.month &&
             (|| a.day < b.day
              || (a.day == b.day &&
                  MakeTime(a.hour, a.minute, a.second) < MakeTime(b.hour, b.minute, b.second))))))
  }

  lemma {:induction false} LexSplit(a: string, b: string, k: nat)
    requires |a| == |b| && k <= |a|
    ensures LexLess(a, b) <==> LexLess(a[..k], b[..k]) || (a[..k] == b[..k] && LexLess(a[k..], b[k..]))
    decreases k
  {
    if k == 0 {
      assert a[0..] == a && b[0..] == b;
    } else {
      LexSplit(a[1..], b[1..], k - 1);
      assert a[1..][..k - 1] == a[..k][1..] && b[1..][..k - 1] == b[..k][1..];
      assert a[1..][k - 1..] == a[k..] && b[1..][k - 1..] == b[k..];
      assert a[..k][0] == a[0] && b[..k][0] == b[0];
      assert a[..k] == [a[0]] + a[..k][1..] && b[..k] == [b[0]] + b[..k][1..];
    }
  }

  /** On digit strings of one length, string order is numeric order, and equal numbers are equal strings. */
  lemma {:induction false} LexIsNumeric(a: string, b: string)
    requires AllDigits(a) && AllDigits(b) && |a| == |b|
    ensures LexLess(a, b) <==> ParseInt(a) < ParseInt(b)
    ensures a == b <==> ParseInt(a) == ParseInt(b)
  {
    hide LexLess;
    if a == "" {
      EmptyNotLess();
    } else {
      var k := |a| - 1;
      LexIsNumeric(a[..k], b[..k]);
      LexSplit(a, b, k);
      LastChar(a);
      LastChar(b);
      OneCharLess(a[k], b[k]);
      DigitStep(ParseInt(a[..k]), a[k] as int - '0' as int, ParseInt(b[..k]), b[k] as int - '0' as int);
    }
  }

  lemma EmptyNotLess()
    ensures !LexLess("", "")
  {
  }

  lemma LastChar(s: string)
    requires s != ""
    ensures s == s[..|s| - 1] + [s[|s| - 1]] && s[|s| - 1..] == [s[|s| - 1]]
  {
  }

  lemma OneCharLess(c: char, d: char)
    ensures LexLess([c], [d]) <==> c < d
  {
    assert [c][1..] == "" && [d][1..] == "";
  }

  lemma DigitStep(x: int, c: int, y: int, d: int)
    requires 0 <= c <= 9 && 0 <= d <= 9
    ensures x * 10 + c < y * 10 + d <==> x < y || (x == y && c < d)
    ensures x * 10 + c == y * 10 + d <==> x == y && c == d
  {
  }

  lemma PaddedFields(s: string)
    requires AllDigits(s) && (|s| == 12 || |s| == 14)
    ensures |Padded(s)| == 14 && AllDigits(Padded(s)) && Named(Padded(s)) == Named(s)
  {
    var p := Padded(s);
    assert p[0..4] == s[0..4] && p[4..6] == s[4..6] && p[6..8] == s[6..8] && p[8..10] == s[8..10] && p[10..12] == s[10..12];
    if |s| == 12 {
      assert p[12..14] == "00";
      assert "00"[..1] == "0" && "0"[..0] == "";
    }
  }

  /** One more field: the order of two strings from position `k` on, given the order from `k + w` on. */
  lemma LexField(a: string, b: string, k: nat, w: nat)
    requires |a| == |b| && k + w <= |a| && AllDigits(a) && AllDigits(b)
    ensures var x, y := ParseInt(a[k..k + w]), ParseInt(b[k..k + w]);
            LexLess(a[k..], b[k..]) <==> x < y || (x == y && LexLess(a[k + w..], b[k + w..]))
  {
    LexSplit(a[k..], b[k..], w);
    assert a[k..][..w] == a[k..k + w] && b[k..][..w] == b[k..k + w];
    assert a[k..][w..] == a[k + w..] && b[k..][w..] == b[k + w..];
    LexIsNumeric(a[k..k + w], b[k..k + w]);
  }

  lemma TimesInOrder(a: Fields, b: Fields)
    requires RealDate(a) && RealDate(b)
    ensures MakeTime(a.hour, a.minute, a.second) < MakeTime(b.hour, b.minute, b.second) <==>
            || a.hour < b.hour
            || (a.hour == b.hour && (a.minute < b.minute || (a.minute == b.minute && a.second < b.second)))
  {
  }

  lemma LexIsFields(a: string, b: string)
    requires |a| == |b| == 14 && AllDigits(a) && AllDigits(b)
    requires RealDate(Named(a)) && RealDate(Named(b))
    ensures LexLess(a, b) <==> FieldsLess(Named(a), Named(b))
  {
    hide ParseInt, RealDate, MakeTime;
    LexField(a, b, 0, 4);
    LexField(a, b, 4, 2);
    LexField(a, b, 6, 2);
    LexField(a, b, 8, 2);
    LexField(a, b, 10, 2);
    LexField(a, b, 12, 2);
    assert a[0..] == a && b[0..] == b && a[14..] == b[14..] == "";
    TimesInOrder(Named(a), Named(b));
  }

  lemma DaysInOrder(a: Fields, b: Fields)
    requires RealDate(a) && RealDate(b)
    requires a.year < b.year || (a.year == b.year && (a.month < b.month || (a.month == b.month && a.day < b.day)))
    ensures DayNumber(a.year, a.month, a.day) < DayNumber(b.year, b.month, b.day)
  {
    DayNumberInYear(a.year, a.month, a.day);
    DayNumberInYear(b.year, b.month, b.day);
    if a.year < b.year {
      YearsGrow(a.year + 1, b.year);
    } else if a.month < b.month {
      MonthsGrow(a.month, b.month - 1, IsLeap(a.year));
    }
  }

  lemma TimeOfDay(f: Fields)
    requires RealDate(f)
    ensures 0 <= MakeTime(f.hour, f.minute, f.second) < 86400000
  {
  }

  lemma InstantsInOrder(a: Fields, b: Fields)
    requires RealDate(a) && RealDate(b)
    ensures Instant(a) < Instant(b) <==> FieldsLess(a, b)
  {
    TimeOfDay(a);
    TimeOfDay(b);
    var x, y := DayNumber(a.year, a.month, a.day), DayNumber(b.year, b.month, b.day);
    if a.year == b.year && a.month == b.month && a.day == b.day {
      assert x == y;
    } else if FieldsLess(a, b) {
      DaysInOrder(a, b);
      assert x + 1 <= y;
    } else {
      DaysInOrder(b, a);
      assert y + 1 <= x;
    }
  }

  /** Order agreement: for two valid timestamps the order of the padded strings is the order of the instants. */
  lemma OrderAgreement(a: string, b: string)
    requires AllDigits(a) && (|a| == 12 || |a| == 14) && AllDigits(b) && (|b| == 12 || |b| == 14)
    ensures ParseTimestamp(a).Valid? && ParseTimestamp(b).Valid? ==>
              (LexLess(Padded(a), Padded(b)) <==> ParseTimestamp(a).time < ParseTimestamp(b).time)
  {
    hide *;
    CalendarExact(a);
    CalendarExact(b);
    PaddedFields(a);
    PaddedFields(b);
    if ParseTimestamp(a).Valid? && ParseTimestamp(b).Valid? {
      LexIsFields(Padded(a), Padded(b));
      InstantsInOrder(Named(a), Named(b));
    }
  }

  // ---------------------------------------------------------------------------
  // The rule
  // ---------------------------------------------------------------------------

  const CUTOFF_DATE := "20251118"

  datatype Verdict = Ignored | Accepted | InvalidFormat | InvalidTimestamp(stamp: string) | FutureTimestamp(stamp: string)

  predicate EndsWith(s: string, suffix: string) {
    |suffix| <= |s| && s[|s| - |suffix|..] == suffix
  }

  predicate DigitsUpTo(s: string, n: nat)
    requires n <= |s|
  {
    forall k :: 0 <= k < n ==> IsDigit(s[k])
  }

  /** `n` digits, an underscore, anything but line terminators, `.cjs`. */
  predicate Stamped(name: string, n: nat) {
    && n + 5 <= |name| && DigitsUpTo(name, n) && name[n] == '_' && EndsWith(name, ".cjs")
    && forall k :: n < k < |name| - 4 ==> !IsLineTerminator(name[k])
  }

  /** Length of the timestamp the file name pattern captures, or 0 when the name does not match. */
  function CapturedLength(name: string): (n: nat)
    ensures n == 0 || (n == 12 && Stamped(name, 12)) || (n == 14 && Stamped(name, 14))
  {
    if Stamped(name, 14) then 14 else if Stamped(name, 12) then 12 else 0
  }

  /** The rule on one file, at time `now`; `inMigrations` says whether its directory path contains "migration". */
  function Check(inMigrations: bool, basename: string, now: int): Verdict {
    if !inMigrations || !EndsWith(basename, ".cjs") then Ignored
    else if LexLess(if |basename| < 8 then basename else basename[..8], CUTOFF_DATE) then Ignored
    else
      var n := CapturedLength(basename);
      if n == 0 then InvalidFormat
      else
        var stamp := basename[..n];
        var result := ParseTimestamp(stamp);
        if result.Invalid? then InvalidTimestamp(stamp)
        else if result.time > now then FutureTimestamp(stamp)
        else Accepted
  }

  /** The cutoff instant, 18 November 2025 at midnight. */
  const CUTOFF := Fields(2025, 11, 18, 0, 0, 0)

  lemma CutoffFields()
    ensures ParseInt(CUTOFF_DATE[0..4]) == 2025 && ParseInt(CUTOFF_DATE[4..6]) == 11 && ParseInt(CUTOFF_DATE[6..8]) == 18
    ensures AllDigits(CUTOFF_DATE)
  {
    TwoDigits("20");
    TwoDigits("25");
    assert CUTOFF_DATE[0..4][..3][..2] == "20" && CUTOFF_DATE[0..4][2] == '2' && CUTOFF_DATE[0..4][3] == '5';
    assert ParseInt(CUTOFF_DATE[0..4][..3]) == ParseInt(CUTOFF_DATE[0..4][..3][..2]) * 10 + 2;
    assert CUTOFF_DATE[4..6] == "11" && CUTOFF_DATE[6..8] == "18";
    TwoDigits("11");
    TwoDigits("18");
  }

  lemma TwoDigits(s: string)
    requires |s| == 2
    ensures ParseInt(s) == (s[0] as int - '0' as int) * 10 + (s[1] as int - '0' as int)
  {
    assert s[..1][..0] == "";
    assert ParseInt(s[..1]) == ParseInt(s[..1][..0]) * 10 + (s[0] as int - '0' as int);
  }

  /** The string test against the eight-digit cutoff is the test against the cutoff instant. */
  lemma CutoffAgreement(s: string)
    requires AllDigits(s) && (|s| == 12 || |s| == 14)
    ensures ParseTimestamp(s).Valid? ==> (LexLess(s[..8], CUTOFF_DATE) <==> ParseTimestamp(s).time < Instant(CUTOFF))
  {
    hide ParseInt, LexLess, CheckFields, RealDate, Instant, AllDigits;
    CalendarExact(s);
    if ParseTimestamp(s).Valid? {
      DigitsPrefix(s);
      CutoffOrder(s[..8]);
      FieldsBeforeCutoff(Named(s));
    }
  }

  lemma DigitsPrefix(s: string)
    requires AllDigits(s) && |s| >= 8
    ensures AllDigits(s[..8]) && s[..8][0..4] == s[0..4] && s[..8][4..6] == s[4..6] && s[..8][6..8] == s[6..8]
  {
  }

  lemma RealCutoff()
    ensures RealDate(CUTOFF) && MakeTime(CUTOFF.hour, CUTOFF.minute, CUTOFF.second) == 0
  {
  }

  lemma FieldsBeforeCutoff(f: Fields)
    requires RealDate(f)
    ensures Instant(f) < Instant(CUTOFF) <==>
            f.year < 2025 || (f.year == 2025 && (f.month < 11 || (f.month == 11 && f.day < 18)))
  {
    hide Instant, MakeTime, RealDate;
    TimeOfDay(f);
    RealCutoff();
    InstantsInOrder(f, CUTOFF);
  }

  lemma CutoffOrder(head: string)
    requires |head| == 8 && AllDigits(head)
    ensures var y, m, d := ParseInt(head[0..4]), ParseInt(head[4..6]), ParseInt(head[6..8]);
            LexLess(head, CUTOFF_DATE) <==> y < 2025 || (y == 2025 && (m < 11 || (m == 11 && d < 18)))
  {
    hide ParseInt;
    CutoffFields();
    LexField(head, CUTOFF_DATE, 0, 4);
    LexField(head, CUTOFF_DATE, 4, 2);
    LexField(head, CUTOFF_DATE, 6, 2);
    assert head[0..] == head && CUTOFF_DATE[0..] == CUTOFF_DATE && head[8..] == CUTOFF_DATE[8..] == "";
    assert !LexLess("", "");
  }

  /** The pattern reads a name in one way only. */
  lemma CaptureIsUnique(name: string)
    ensures Stamped(name, 12) ==> !Stamped(name, 14)
  {
  }

  /** The name carries a timestamp of `n` digits: a real date from year 100 on that is not in the future. */
  ghost predicate ProperlyStamped(basename: string, n: nat, now: int) {
    && (n == 12 || n == 14) && Stamped(basename, n)
    && var f := Named(basename[..n]); f.year >= 100 && RealDate(f) && Instant(f) <= now
  }

  /**
   * The rule, exactly: a file in a migration directory passes if and only if it is no `.cjs` file, is before the cutoff
   * as a string, or is properly stamped.
   */
  lemma RuleExact(basename: string, now: int)
    ensures Check(true, basename, now) in [Ignored, Accepted] <==>
            || !EndsWith(basename, ".cjs")
            || LexLess(if |basename| < 8 then basename else basename[..8], CUTOFF_DATE)
            || ProperlyStamped(basename, 12, now) || ProperlyStamped(basename, 14, now)
  {
    hide ParseTimestamp, RealDate, Instant, Named, LexLess;
    CaptureIsUnique(basename);
    if Stamped(basename, 12) {
      CalendarExact(basename[..12]);
    }
    if Stamped(basename, 14) {
      CalendarExact(basename[..14]);
    }
  }
}
