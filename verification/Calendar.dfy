/** Dates of the proleptic Gregorian calendar as `Date` computes them, and the two bounds on validity periods. */
module Calendar {
  const DAY := 86_400_000
  const EPOCH := 719_528

  predicate IsLeap(year: int) {
    year % 4 == 0 && (year % 100 != 0 || year % 400 == 0)
  }

  /** The days before 1 January of a year, counted from year 0. */
  function DaysBeforeYear(year: int): int {
    365 * year + (year + 3) / 4 - (year + 99) / 100 + (year + 399) / 400
  }

  function MonthLength(year: int, month: int): int
    requires 0 <= month < 12
  {
    if month == 1 then (if IsLeap(year) then 29 else 28)
    else if month == 3 || month == 5 || month == 8 || month == 10 then 30
    else 31
  }

  /** The days before the first of a month, counted from 1 January; month 12 is the next January. */
  function DaysBeforeMonth(year: int, month: int): int
    requires 0 <= month <= 12
  {
    if month == 0 then 0 else DaysBeforeMonth(year, month - 1) + MonthLength(year, month - 1)
  }

  /** `MakeDay`: months past December carry into the year, and days past the month into the next month. */
  function MakeDay(year: int, month: int, day: int): int {
    DaysBeforeYear(year + month / 12) + DaysBeforeMonth(year + month / 12, month % 12) + day - 1 - EPOCH
  }

  datatype Civil = Civil(year: int, month: int, day: int)

  predicate IsDate(c: Civil) {
    0 <= c.month < 12 && 1 <= c.day <= MonthLength(c.year, c.month)
  }

  function DayOf(c: Civil): int {
    MakeDay(c.year, c.month, c.day)
  }

  lemma YearLength(year: int)
    ensures DaysBeforeYear(year + 1) - DaysBeforeYear(year) == if IsLeap(year) then 366 else 365
  {
    var a, b, c := year % 4 == 0, year % 100 == 0, year % 400 == 0;
    Carry(year, 4);
    Carry(year, 100);
    Carry(year, 400);
    Divides(year);
    YearStep(year);
    assert IsLeap(year) == (a && (!b || c));
  }

  lemma YearStep(year: int)
    ensures DaysBeforeYear(year + 1) - DaysBeforeYear(year) ==
            365 + ((year + 4) / 4 - (year + 3) / 4) - ((year + 100) / 100 - (year + 99) / 100)
            + ((year + 400) / 400 - (year + 399) / 400)
  {
  }

  lemma Divides(year: int)
    ensures (year % 400 == 0 ==> year % 100 == 0) && (year % 100 == 0 ==> year % 4 == 0)
  {
  }

  /** A period that divides the year adds one more at its end. */
  lemma Carry(year: int, n: int)
    requires n == 4 || n == 100 || n == 400
    ensures (year + n) / n - (year + n - 1) / n == if year % n == 0 then 1 else 0
  {
  }

  // ---------- every day has a date ----------

  function Next(c: Civil): Civil
    requires IsDate(c)
  {
    if c.day < MonthLength(c.year, c.month) then c.(day := c.day + 1)
    else if c.month < 11 then Civil(c.year, c.month + 1, 1)
    else Civil(c.year + 1, 0, 1)
  }

  function Previous(c: Civil): Civil
    requires IsDate(c)
  {
    if c.day > 1 then c.(day := c.day - 1)
    else if c.month > 0 then Civil(c.year, c.month - 1, MonthLength(c.year, c.month - 1))
    else Civil(c.year - 1, 11, 31)
  }

  lemma PlainDay(c: Civil)
    requires IsDate(c)
    ensures DayOf(c) == DaysBeforeYear(c.year) + DaysBeforeMonth(c.year, c.month) + c.day - 1 - EPOCH
  {
    assert c.month / 12 == 0 && c.month % 12 == c.month;
  }

  lemma NextIsNext(c: Civil)
    requires IsDate(c)
    ensures IsDate(Next(c)) && DayOf(Next(c)) == DayOf(c) + 1
  {
    PlainDay(c);
    PlainDay(Next(c));
    if c.day == MonthLength(c.year, c.month) && c.month == 11 {
      YearLength(c.year);
      MonthTable(c.year);
    }
  }

  lemma PreviousIsPrevious(c: Civil)
    requires IsDate(c)
    ensures IsDate(Previous(c)) && DayOf(Previous(c)) == DayOf(c) - 1
  {
    PlainDay(c);
    PlainDay(Previous(c));
    if c.day == 1 && c.month == 0 {
      YearLength(c.year - 1);
      MonthTable(c.year - 1);
    }
  }

  lemma EpochIsDayZero()
    ensures DayOf(Civil(1970, 0, 1)) == 0
  {
    PlainDay(Civil(1970, 0, 1));
  }

  /** The date of a day since 1 January 1970. */
  function DateOf(day: int): (c: Civil)
    ensures IsDate(c) && DayOf(c) == day
    decreases if day < 0 then -day else day
  {
    if day == 0 then
      EpochIsDayZero();
      Civil(1970, 0, 1)
    else if day > 0 then
      NextIsNext(DateOf(day - 1));
      Next(DateOf(day - 1))
    else
      PreviousIsPrevious(DateOf(day + 1));
      Previous(DateOf(day + 1))
  }

  // ---------- six and twelve months by field carry ----------

  lemma SixMonthsWithin(year: int, month: int)
    requires 0 <= month < 6
    ensures 181 <= DaysBeforeMonth(year, month + 6) - DaysBeforeMonth(year, month) <= 184
  {
    MonthTable(year);
  }

  lemma SixMonthsOver(year: int, month: int)
    requires 6 <= month < 12
    ensures 181 <= DaysBeforeMonth(year, 12) - DaysBeforeMonth(year, month)
              + DaysBeforeMonth(year + 1, month - 6) <= 184
  {
    MonthTable(year);
    MonthTable(year + 1);
  }

  lemma WholeYear(year: int)
    ensures DaysBeforeYear(year + 1) - DaysBeforeYear(year) == DaysBeforeMonth(year, 12)
  {
    MonthTable(year);
    YearLength(year);
  }

  /** The six months from a month on, over the end of the year if need be. */
  lemma SixMonths(year: int, month: int)
    requires 0 <= month < 12
    ensures 181 <= MakeDay(year, month + 6, 1) - MakeDay(year, month, 1) <= 184
  {
    assert month / 12 == 0 && month % 12 == month;
    if month < 6 {
      SixMonthsWithin(year, month);
      assert (month + 6) / 12 == 0 && (month + 6) % 12 == month + 6;
    } else {
      SixMonthsOver(year, month);
      WholeYear(year);
      assert (month + 6) / 12 == 1 && (month + 6) % 12 == month - 6;
    }
  }

  lemma MonthTable(year: int)
    ensures var leap := if IsLeap(year) then 1 else 0;
            && DaysBeforeMonth(year, 0) == 0 && DaysBeforeMonth(year, 1) == 31 && DaysBeforeMonth(year, 2) == 59 + leap
            && DaysBeforeMonth(year, 3) == 90 + leap && DaysBeforeMonth(year, 4) == 120 + leap
            && DaysBeforeMonth(year, 5) == 151 + leap
            && DaysBeforeMonth(year, 6) == 181 + leap && DaysBeforeMonth(year, 7) == 212 + leap
            && DaysBeforeMonth(year, 8) == 243 + leap
            && DaysBeforeMonth(year, 9) == 273 + leap && DaysBeforeMonth(year, 10) == 304 + leap
            && DaysBeforeMonth(year, 11) == 334 + leap && DaysBeforeMonth(year, 12) == 365 + leap
  {
  }

  /** Within one year, a date stands as far from the first of its month as the day of the month says. */
  lemma CarriesAlike(year: int, month: int, other: int, day: int)
    ensures MakeDay(year, other, day) - MakeDay(year, month, day) == MakeDay(year, other, 1) - MakeDay(year, month, 1)
  {
  }

  // ---------- NextUpdate ----------

  const SIX_MONTHS_IN_MS := 6 * 31 * DAY

  /** A day and a time of day. */
  function TimeAt(day: int, rest: int): int {
    day * DAY + rest
  }

  function GetMonth(time: int, offset: int): int {
    DateOf((time + offset) / DAY).month
  }

  /** The day that `setMonth` goes to. */
  function DayInMonth(day: int, month: int): int {
    MakeDay(DateOf(day).year, month, DateOf(day).day)
  }

  /** `setMonth` in local time: `before` and `after` are the offsets of the old and the new local time. */
  function WithMonth(time: int, month: int, before: int, after: int): int {
    TimeAt(DayInMonth((time + before) / DAY, month), (time + before) % DAY) - after
  }

  function SixMonthsLater(time: int, before: int, after: int): int {
    WithMonth(time, GetMonth(time, before) + 6, before, after)
  }

  class Date {
    var time: int

    constructor (time: int)
      ensures this.time == time
    {
      this.time := time;
    }

    method SetMonth(month: int, before: int, after: int)
      modifies this
      ensures time == WithMonth(old(time), month, before, after)
    {
      var localTime := time + before;
      var day := DayInMonth(localTime / DAY, month);
      time := TimeAt(day, localTime % DAY) - after;
    }

    method SetUtcFullYear(year: int)
      modifies this
      ensures time == WithYear(old(time), year)
    {
      var day := DayInYear(time / DAY, year);
      time := TimeAt(day, time % DAY);
    }
  }

  /** The default NextUpdate of a new list: a copy of the time of issue, six months on. */
  method DefaultNextUpdate(issued: int, before: int, after: int) returns (nextUpdate: int)
    ensures nextUpdate == SixMonthsLater(issued, before, after)
  {
    var date := new Date(issued);
    date.SetMonth(GetMonth(date.time, before) + 6, before, after);
    nextUpdate := date.time;
  }

  /** The default NextUpdate is between 181 and 184 days later, apart from a change of the local offset. */
  lemma SixMonthsInDays(time: int, before: int, after: int)
    ensures 181 * DAY <= SixMonthsLater(time, before, after) - time + after - before <= 184 * DAY
  {
    var local := time + before;
    var day := local / DAY;
    var later := DayInMonth(day, DateOf(day).month + 6);
    SixMonthsFromDay(day);
    assert local == TimeAt(day, local % DAY);
    assert SixMonthsLater(time, before, after) == TimeAt(later, local % DAY) - after;
  }

  lemma SixMonthsFromDay(day: int)
    ensures 181 <= DayInMonth(day, DateOf(day).month + 6) - day <= 184
  {
    var c := DateOf(day);
    SixMonths(c.year, c.month);
    CarriesAlike(c.year, c.month, c.month + 6, c.day);
    assert DayOf(c) == day;
  }

  /**
   * The fields of an RFC 3339 date-time; the offset is in minutes. Fractions are cut to milliseconds, but one
   * that reads as the number 1 gives 1000 of them.
   */
  datatype DateTime = DateTime(year: int, month: int, day: int, hour: int, minute: int, second: int, millis: int,
                               offset: int)

  /** `isRfc3339DateTime`: a leap second stands only at 23:59:60 UTC. */
  predicate IsDateTime(d: DateTime) {
    && 0 <= d.year <= 9999 && 1 <= d.month <= 12 && 1 <= d.day <= MonthLength(d.year, d.month - 1)
    && 0 <= d.hour <= 23 && 0 <= d.minute <= 59 && 0 <= d.second <= 60 && 0 <= d.millis <= 1000
    && -1440 < d.offset < 1440
    && (d.second == 60 ==> (d.hour * 60 + d.minute - d.offset) % 1440 == 1439)
  }

  /** `rfc3339DateTimeToMs`: fields past their range carry over. */
  function ToMs(d: DateTime): int {
    MakeDay(d.year, d.month - 1, d.day) * DAY + ((d.hour * 60 + d.minute - d.offset) * 60 + d.second) * 1000 + d.millis
  }

  /** A leap second counts as the first second of a day: what is left of it in the day is its fraction. */
  lemma LeapSecondStartsDay(d: DateTime)
    requires IsDateTime(d) && d.second == 60
    ensures ToMs(d) % DAY == d.millis
  {
    LastMinute(MakeDay(d.year, d.month - 1, d.day), d.hour * 60 + d.minute - d.offset, d.millis);
  }

  lemma LastMinute(day: int, minutes: int, millis: int)
    requires minutes % 1440 == 1439 && 0 <= millis <= 1000
    ensures (day * DAY + (minutes * 60 + 60) * 1000 + millis) % DAY == millis
  {
    var days := minutes / 1440;
    assert day * DAY + (minutes * 60 + 60) * 1000 + millis == (day + days + 1) * DAY + millis;
  }

  /** `toISOString` of a time of day on a date. */
  function IsoAt(c: Civil, rest: int): DateTime {
    DateTime(c.year, c.month + 1, c.day, rest / 3_600_000, rest / 60_000 % 60, rest / 1000 % 60, rest % 1000, 0)
  }

  function Iso(time: int): DateTime {
    IsoAt(DateOf(time / DAY), time % DAY)
  }

  lemma TimeOfDay(rest: int)
    requires 0 <= rest < DAY
    ensures 0 <= rest / 3_600_000 <= 23
    ensures ((rest / 3_600_000 * 60 + rest / 60_000 % 60) * 60 + rest / 1000 % 60) * 1000 + rest % 1000 == rest
  {
    var seconds, minutes := rest / 1000, rest / 60_000;
    assert minutes == seconds / 60 && rest / 3_600_000 == minutes / 60;
  }

  lemma IsoAtIsRead(c: Civil, rest: int)
    requires IsDate(c) && 0 <= c.year <= 9999 && 0 <= rest < DAY
    ensures IsDateTime(IsoAt(c, rest)) && ToMs(IsoAt(c, rest)) == DayOf(c) * DAY + rest
  {
    TimeOfDay(rest);
    var d := IsoAt(c, rest);
    assert MakeDay(d.year, d.month - 1, d.day) == DayOf(c);
  }

  /** What `toISOString` writes for a year of four digits is accepted, and read as the same time. */
  lemma IsoIsRead(time: int)
    requires 0 <= DateOf(time / DAY).year <= 9999
    ensures IsDateTime(Iso(time)) && ToMs(Iso(time)) == time
  {
    IsoAtIsRead(DateOf(time / DAY), time % DAY);
  }

  predicate NextUpdateInTime(issued: DateTime, next: DateTime) {
    ToMs(next) - ToMs(issued) <= SIX_MONTHS_IN_MS
  }

  /**
   * The default NextUpdate passes the check of the profiles, for every date and whatever the local offsets are, as long
   * as both years have four digits and leaving for the new offset adds at most two days.
   */
  lemma DefaultNextUpdatePasses(now: int, before: int, after: int)
    requires before - after <= 2 * DAY
    requires 0 <= DateOf(now / DAY).year <= 9999 && 0 <= DateOf(SixMonthsLater(now, before, after) / DAY).year <= 9999
    ensures NextUpdateInTime(Iso(now), Iso(SixMonthsLater(now, before, after)))
  {
    SixMonthsInDays(now, before, after);
    IsoIsRead(now);
    IsoIsRead(SixMonthsLater(now, before, after));
  }

  // ---------- exp ----------

  function DayInYear(day: int, year: int): int {
    MakeDay(year, DateOf(day).month, DateOf(day).day)
  }

  /** `setUTCFullYear`. */
  function WithYear(time: int, year: int): int {
    TimeAt(DayInYear(time / DAY, year), time % DAY)
  }

  function OneYearLater(time: int): int {
    WithYear(time, DateOf(time / DAY).year + 1)
  }

  /** The latest time that is at most twelve months after another. */
  method MaxExp(iat: int) returns (maxExp: int)
    ensures maxExp == OneYearLater(iat * 1000)
  {
    var date := new Date(iat * 1000);
    date.SetUtcFullYear(DateOf(date.time / DAY).year + 1);
    maxExp := date.time;
  }

  /** Neither issue about `exp` is found: it is after `iat`, and at most twelve months after it. */
  predicate ExpAccepted(iat: int, exp: int) {
    !(exp * 1000 > OneYearLater(iat * 1000)) && !(exp <= iat)
  }

  /** The days from a date to the same date next year: one more if there is a 29 February on the way. */
  function DaysToNextYear(c: Civil): int {
    if (c.month <= 1 && IsLeap(c.year)) || (c.month > 1 && IsLeap(c.year + 1)) then 366 else 365
  }

  lemma OneYearInDays(c: Civil)
    requires IsDate(c)
    ensures MakeDay(c.year + 1, c.month, c.day) - DayOf(c) == DaysToNextYear(c)
  {
    YearLength(c.year);
    MonthTable(c.year);
    MonthTable(c.year + 1);
    PlainDay(c);
    assert c.month / 12 == 0 && c.month % 12 == c.month;
  }

  /** An `exp` is accepted exactly if it is after `iat` by at most 365 or, over a 29 February, 366 days. */
  lemma ExpWithinTwelveMonths(iat: int, exp: int)
    ensures ExpAccepted(iat, exp) <==> 0 < exp - iat <= DaysToNextYear(DateOf(iat * 1000 / DAY)) * 86_400
  {
    var time := iat * 1000;
    var c := DateOf(time / DAY);
    OneYearInDays(c);
    assert time == TimeAt(DayOf(c), time % DAY);
    assert OneYearLater(time) == TimeAt(DayOf(c) + DaysToNextYear(c), time % DAY);
  }
}
