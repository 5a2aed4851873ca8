/** The proleptic Gregorian calendar, as day numbers: day 0 is 1 January of year 0, a Saturday. */
module Calendar {

  predicate IsLeap(y: int) { y % 4 == 0 && (y % 100 != 0 || y % 400 == 0) }

  /** Months are numbered through: month m of year y is 12 * y + m - 1. */
  function YearOf(month: int): int { month / 12 }

  function Length(month: int): (n: int)
    ensures 28 <= n <= 31
  {
    var m := month % 12;
    if m == 1 then if IsLeap(YearOf(month)) then 29 else 28
    else if m == 3 || m == 5 || m == 8 || m == 10 then 30
    else 31
  }

  /** The day number of the first of a month. */
  function MonthStart(month: int): int
    decreases if month < 0 then -month else month
  {
    if month == 0 then 0
    else if month > 0 then MonthStart(month - 1) + Length(month - 1)
    else MonthStart(month + 1) - Length(month)
  }

  lemma MonthStartStep(month: int)
    ensures MonthStart(month + 1) == MonthStart(month) + Length(month)
  {
  }

  lemma {:induction false} MonthStartMonotone(j: int, k: int)
    requires j < k
    ensures MonthStart(j) + 28 * (k - j) <= MonthStart(k)
    decreases k - j
  {
    MonthStartStep(k - 1);
    if j < k - 1 { MonthStartMonotone(j, k - 1); }
  }

  /** The month a day falls in, searched for from a guess. */
  function MonthFrom(guess: int, day: int): (month: int)
    ensures MonthStart(month) <= day < MonthStart(month + 1)
    decreases day < MonthStart(guess), if day < MonthStart(guess) then MonthStart(guess) - day
        else day - MonthStart(guess)
  {
    MonthStartStep(guess);
    MonthStartStep(guess - 1);
    if day < MonthStart(guess) then MonthFrom(guess - 1, day)
    else if day >= MonthStart(guess + 1) then MonthFrom(guess + 1, day)
    else guess
  }

  function MonthOf(day: int): (month: int)
    ensures MonthStart(month) <= day < MonthStart(month + 1)
  {
    MonthFrom(0, day)
  }

  /** A day lies in one month only. */
  lemma MonthIsUnique(day: int, month: int)
    requires MonthStart(month) <= day < MonthStart(month + 1)
    ensures MonthOf(day) == month
  {
    var k := MonthOf(day);
    if k < month {
      if k + 1 < month { MonthStartMonotone(k + 1, month); }
    } else if month < k {
      if month + 1 < k { MonthStartMonotone(month + 1, k); }
    }
  }

  function DayOfMonth(day: int): (d: int)
    ensures 1 <= d <= Length(MonthOf(day))
  {
    MonthStartStep(MonthOf(day));
    day - MonthStart(MonthOf(day)) + 1
  }

  /** The day number of a date; days past the ends of the month run over, as in time.Date. */
  function DateDay(year: int, month: int, d: int): int { MonthStart(12 * year + month - 1) + d - 1 }

  /** A date within its month is read back as it was written. */
  lemma DateRoundTrip(month: int, d: int)
    requires 1 <= d <= Length(month)
    ensures MonthOf(MonthStart(month) + d - 1) == month && DayOfMonth(MonthStart(month) + d - 1) == d
  {
    MonthStartStep(month);
    MonthIsUnique(MonthStart(month) + d - 1, month);
  }

  // ---- weeks ----------------------------------------------------------------------------------

  /** Sunday is 0. */
  function Weekday(day: int): (w: nat)
    ensures w < 7
  {
    (day + 6) % 7
  }

  /** The Monday of a day's week. */
  function WeekStart(day: int): (d: int)
    ensures d <= day <= d + 6
  {
    day - (Weekday(day) + 6) % 7
  }

  /** Whole weeks between the weeks of two days. */
  function WeeksBetween(anchor: int, day: int): int { (WeekStart(day) - WeekStart(anchor)) / 7 }

  /** Weeks start on Monday, and weekdays come round every seven days. */
  lemma WeeksStartOnMonday(day: int)
    ensures Weekday(WeekStart(day)) == 1 && Weekday(day + 1) == (Weekday(day) + 1) % 7
  {
  }

  lemma WeekStartForm(day: int)
    ensures WeekStart(day) == 7 * ((day + 12) / 7) - 12
  {
  }

  lemma WeeksAreWhole(anchor: int, day: int)
    ensures WeekStart(day) == WeekStart(anchor) + 7 * WeeksBetween(anchor, day)
  {
    WeekStartForm(anchor);
    WeekStartForm(day);
  }

  lemma LeapsRepeat(y: int)
    ensures IsLeap(y + 400) == IsLeap(y)
  {
    assert (y + 400) % 4 == y % 4 && (y + 400) % 100 == y % 100 && (y + 400) % 400 == y % 400;
  }

  lemma LengthRepeats(month: int)
    ensures Length(month + 4800) == Length(month)
  {
    assert YearOf(month + 4800) == YearOf(month) + 400 && (month + 4800) % 12 == month % 12;
    LeapsRepeat(YearOf(month));
  }

  /** The calendar repeats every 400 years. */
  lemma {:induction false} LengthsRepeat(month: int, times: nat)
    ensures Length(month + 4800 * times) == Length(month)
  {
    if times > 0 {
      LengthsRepeat(month, times - 1);
      LengthRepeats(month + 4800 * (times - 1));
    }
  }

  /** Leap days in the years before this one. */
  function LeapDays(y: nat): int { (y + 3) / 4 - (y + 99) / 100 + (y + 399) / 400 }

  lemma LeapDaysNext(y: nat)
    ensures LeapDays(y + 1) == LeapDays(y) + if IsLeap(y) then 1 else 0
  {
    assert (y + 4) / 4 == (y + 3) / 4 + if y % 4 == 0 then 1 else 0;
    assert (y + 100) / 100 == (y + 99) / 100 + if y % 100 == 0 then 1 else 0;
    assert (y + 400) / 400 == (y + 399) / 400 + if y % 400 == 0 then 1 else 0;
  }

  function Quarter(month: int): int { Length(month) + Length(month + 1) + Length(month + 2) }

  lemma QuarterStep(month: int)
    ensures MonthStart(month + 3) == MonthStart(month) + Quarter(month)
  {
    MonthStartStep(month);
    MonthStartStep(month + 1);
    MonthStartStep(month + 2);
  }

  lemma MonthParts(month: int, k: int)
    requires month % 12 == 0 && 0 <= k < 12
    ensures (month + k) % 12 == k && YearOf(month + k) == YearOf(month)
  {
  }

  lemma LengthAt(month: int, k: int)
    requires month % 12 == 0 && 0 <= k < 12
    ensures Length(month + k) ==
      if k == 1 then (if IsLeap(YearOf(month)) then 29 else 28)
      else if k == 3 || k == 5 || k == 8 || k == 10 then 30 else 31
  {
    MonthParts(month, k);
  }

  lemma QuartersOfYear(month: int)
    requires month % 12 == 0
    ensures Quarter(month) == (if IsLeap(YearOf(month)) then 91 else 90)
    ensures Quarter(month + 3) == 91 && Quarter(month + 6) == 92 && Quarter(month + 9) == 92
  {
    LengthAt(month, 0);
    LengthAt(month, 1);
    LengthAt(month, 2);
    LengthAt(month, 3);
    LengthAt(month, 4);
    LengthAt(month, 5);
    LengthAt(month, 6);
    LengthAt(month, 7);
    LengthAt(month, 8);
    LengthAt(month, 9);
    LengthAt(month, 10);
    LengthAt(month, 11);
  }

  lemma YearStep(month: int)
    requires month % 12 == 0
    ensures MonthStart(month + 12) == MonthStart(month) + 365 + if IsLeap(YearOf(month)) then 1 else 0
  {
    QuarterStep(month);
    QuarterStep(month + 3);
    QuarterStep(month + 6);
    QuarterStep(month + 9);
    QuartersOfYear(month);
  }

  lemma NextYear(y: nat, before: int, after: int)
    requires before == 365 * y + LeapDays(y) && after == before + 365 + if IsLeap(y) then 1 else 0
    ensures after == 365 * (y + 1) + LeapDays(y + 1)
  {
    LeapDaysNext(y);
  }

  lemma January(y: int, month: int)
    requires month == 12 * y
    ensures month % 12 == 0 && YearOf(month) == y
  {
  }

  /** The months add up to years of 365 days and the leap days. */
  lemma {:induction false} YearStart(y: nat, month: int)
    requires month == 12 * y
    ensures MonthStart(month) == 365 * y + LeapDays(y)
  {
    if y > 0 {
      var last := month - 12;
      YearStart(y - 1, last);
      January(y - 1, last);
      YearStep(last);
      NextYear(y - 1, MonthStart(last), MonthStart(last + 12));
    }
  }

  /** 1 January 1970 is day 719528, a Thursday, and 1 January 2000 a Saturday. */
  lemma KnownDays(y: nat)
    ensures y == 1970 ==> DateDay(y, 1, 1) == 719528 && Weekday(DateDay(y, 1, 1)) == 4
    ensures y == 2000 ==> Weekday(DateDay(y, 1, 1)) == 6
  {
    YearStart(y, 12 * y);
  }
}
