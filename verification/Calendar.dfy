/** UTC dates and times of day, and the zero-padded numbers they are written with. */
module Calendar {
  import opened Numerals

  datatype Civil = Civil(year: int, month: int, day: int, hour: int, minute: int, second: int, nano: int)

  predicate IsLeap(year: int) { year % 4 == 0 && (year % 100 != 0 || year % 400 == 0) }

  function DaysIn(year: int, month: int): int {
    if month == 2 then (if IsLeap(year) then 29 else 28)
    else if month == 4 || month == 6 || month == 9 || month == 11 then 30
    else 31
  }

  predicate ValidDate(year: int, month: int, day: int) { 1 <= month <= 12 && 1 <= day <= DaysIn(year, month) }

  predicate ValidClock(hour: int, minute: int, second: int) { 0 <= hour < 24 && 0 <= minute < 60 && 0 <= second < 60 }

  /** A UTC time of the years 0 to 9999. */
  predicate Valid(t: Civil) {
    && 0 <= t.year <= 9999 && ValidDate(t.year, t.month, t.day)
    && ValidClock(t.hour, t.minute, t.second) && 0 <= t.nano < 1_000_000_000
  }

  // ---- time as a count ----

  function YearDays(year: int): int { if IsLeap(year) then 366 else 365 }

  function DaysBeforeYear(year: nat): nat {
    if year == 0 then 0 else DaysBeforeYear(year - 1) + YearDays(year - 1)
  }

  function DaysBeforeMonth(year: int, month: nat): nat
    requires 1 <= month <= 13
  {
    if month == 1 then 0 else DaysBeforeMonth(year, month - 1) + DaysIn(year, month - 1)
  }

  /** Days since 1 January of the year 0. */
  function DayNumber(year: nat, month: nat, day: nat): int
    requires 1 <= month <= 12
  {
    DaysBeforeYear(year) + DaysBeforeMonth(year, month) + day - 1
  }

  /** Nanoseconds since the year 0: the position of a time on the time line. */
  function Instant(t: Civil): int
    requires Valid(t)
  {
    (((DayNumber(t.year, t.month, t.day) * 24 + t.hour) * 60 + t.minute) * 60 + t.second) * 1_000_000_000 + t.nano
  }

  lemma {:induction false} MonthsGrow(year: int, a: nat, b: nat)
    requires 1 <= a < b <= 13
    ensures DaysBeforeMonth(year, a) + DaysIn(year, a) <= DaysBeforeMonth(year, b)
    decreases b
  {
    if a < b - 1 { MonthsGrow(year, a, b - 1); }
  }

  lemma YearIsItsMonths(year: int)
    ensures DaysBeforeMonth(year, 13) == YearDays(year)
  {
    var feb := DaysIn(year, 2);
    assert DaysBeforeMonth(year, 2) == 31;
    assert DaysBeforeMonth(year, 3) == 31 + feb;
    assert DaysBeforeMonth(year, 5) == 92 + feb;
    assert DaysBeforeMonth(year, 7) == 153 + feb;
    assert DaysBeforeMonth(year, 9) == 215 + feb;
    assert DaysBeforeMonth(year, 11) == 276 + feb;
    assert DaysBeforeMonth(year, 13) == 337 + feb;
  }

  /** The days before a year in closed form: every fourth year is a leap year, except every
      hundredth, but not every four hundredth. */
  lemma {:induction false} DaysOfYears(year: nat)
    ensures DaysBeforeYear(year) == 365 * year + (year + 3) / 4 - (year + 99) / 100 + (year + 399) / 400
  {
    if year > 0 {
      DaysOfYears(year - 1);
      EveryFourth(year - 1);
      EveryHundredth(year - 1);
      EveryFourHundredth(year - 1);
    }
  }

  lemma EveryFourth(y: nat)
    ensures (y + 4) / 4 == (y + 3) / 4 + if y % 4 == 0 then 1 else 0
  {
  }

  lemma EveryHundredth(y: nat)
    ensures (y + 100) / 100 == (y + 99) / 100 + if y % 100 == 0 then 1 else 0
    ensures y % 100 == 0 ==> y % 4 == 0
  {
    var q, r := y / 100, y % 100;
    assert y == 100 * q + r;
    assert (y + 100) / 100 == q + 1;
    assert (y + 99) / 100 == if r == 0 then q else q + 1;
    assert 100 * q == 4 * (25 * q);
  }

  lemma EveryFourHundredth(y: nat)
    ensures (y + 400) / 400 == (y + 399) / 400 + if y % 400 == 0 then 1 else 0
    ensures y % 400 == 0 ==> y % 100 == 0
  {
    var q, r := y / 400, y % 400;
    assert y == 400 * q + r;
    assert (y + 400) / 400 == q + 1;
    assert (y + 399) / 400 == if r == 0 then q else q + 1;
    assert 400 * q == 100 * (4 * q);
  }

  lemma {:induction false} YearsGrow(a: nat, b: nat)
    requires a < b
    ensures DaysBeforeYear(a) + YearDays(a) <= DaysBeforeYear(b)
    decreases b
  {
    if a < b - 1 { YearsGrow(a, b - 1); }
  }

  lemma DayWithinYear(year: nat, month: nat, day: nat)
    requires ValidDate(year, month, day)
    ensures DaysBeforeYear(year) <= DayNumber(year, month, day) < DaysBeforeYear(year) + YearDays(year)
  {
    MonthsGrow(year, month, 13);
    YearIsItsMonths(year);
  }

  predicate DateBefore(a: Civil, b: Civil) {
    a.year < b.year || (a.year == b.year && (a.month < b.month || (a.month == b.month && a.day < b.day)))
  }

  lemma DayNumberGrows(a: Civil, b: Civil)
    requires Valid(a) && Valid(b) && DateBefore(a, b)
    ensures DayNumber(a.year, a.month, a.day) < DayNumber(b.year, b.month, b.day)
  {
    if a.year < b.year {
      DayWithinYear(a.year, a.month, a.day);
      DayWithinYear(b.year, b.month, b.day);
      YearsGrow(a.year, b.year);
    } else if a.month < b.month {
      MonthsGrow(a.year, a.month, b.month);
    }
  }

  predicate SameDate(a: Civil, b: Civil) { a.year == b.year && a.month == b.month && a.day == b.day }

  /** Seconds of the day. */
  function Clock(t: Civil): int { (t.hour * 60 + t.minute) * 60 + t.second }

  lemma InstantParts(t: Civil)
    requires Valid(t)
    ensures Instant(t) == (DayNumber(t.year, t.month, t.day) * 86_400 + Clock(t)) * 1_000_000_000 + t.nano
    ensures 0 <= Clock(t) < 86_400
  {
  }

  // ---- padded numbers ----

  function ZeroPad(s: string, width: nat): string
    decreases width - |s|
  {
    if |s| < width then ZeroPad("0" + s, width) else s
  }

  /** A number written with at least the given number of digits. */
  function Pad(n: nat, width: nat): string { ZeroPad(Itoa(n), width) }

  function Pow10(w: nat): nat { if w == 0 then 1 else 10 * Pow10(w - 1) }

  lemma {:induction false} ItoaLength(n: nat, w: nat)
    requires w >= 1 && n < Pow10(w)
    ensures 1 <= |Itoa(n)| <= w
    decreases w
  {
    if n >= 10 { ItoaLength(n / 10, w - 1); }
  }

  lemma {:induction false} LeadingZero(s: string)
    requires Digits(s)
    ensures Digits("0" + s) && Number("0" + s) == Number(s)
    decreases |s|
  {
    var t := "0" + s;
    if s == [] {
      assert t[..0] == [];
    } else {
      assert t[..|t| - 1] == "0" + s[..|s| - 1];
      LeadingZero(s[..|s| - 1]);
    }
  }

  lemma {:induction false} ZeroPadKeepsNumber(s: string, width: nat)
    requires Digits(s) && |s| <= width
    ensures |ZeroPad(s, width)| == width && Digits(ZeroPad(s, width)) && Number(ZeroPad(s, width)) == Number(s)
    decreases width - |s|
  {
    if |s| < width {
      LeadingZero(s);
      ZeroPadKeepsNumber("0" + s, width);
    }
  }

  /** A padded number has exactly its width and reads back as the number. */
  lemma PadReads(n: nat, width: nat)
    requires width >= 1 && n < Pow10(width)
    ensures |Pad(n, width)| == width && Digits(Pad(n, width)) && Number(Pad(n, width)) == n
  {
    ItoaLength(n, width);
    NumberOfItoa(n);
    ZeroPadKeepsNumber(Itoa(n), width);
  }
}
