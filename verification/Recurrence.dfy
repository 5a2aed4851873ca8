/** The next occurrence of a recurring reminder. */
module Recurrence {
  import opened Common
  import opened Calendar

  datatype Freq = Daily | Weekly | Monthly

  /** A recurrence rule; byDay is for weekly rules only, as weekday numbers. */
  datatype Rule = Rule(freq: Freq, interval: nat, byDay: seq<nat>)

  /** What parsing guarantees of a rule. */
  predicate WellFormed(r: Rule) {
    && 1 <= r.interval <= 366
    && (forall i :: 0 <= i < |r.byDay| ==> r.byDay[i] < 7)
    && (r.byDay != [] ==> r.freq == Weekly)
  }

  // ---- parsing --------------------------------------------------------------------------------

  /** A part of the text form: what follows the equals sign, None where it is not understood. */
  datatype RulePart = FreqPart(freq: Option<Freq>) | IntervalPart(n: Option<int>) | ByDayPart(days: seq<Option<nat>>)
      | OtherPart

  predicate PartValid(p: RulePart) {
    match p
    case FreqPart(f) => f.Some?
    case IntervalPart(n) => n.Some? && 1 <= n.value <= 366
    case ByDayPart(days) => forall i :: 0 <= i < |days| ==> days[i].Some? && days[i].value < 7
    case OtherPart => false
  }

  /** The rule that valid parts describe: the last of repeated parts counts, and weekdays add up. */
  function Described(parts: seq<RulePart>): (Option<Freq>, int, seq<nat>)
    requires forall i :: 0 <= i < |parts| ==> PartValid(parts[i])
    decreases |parts|
  {
    if parts == [] then (None, 1, [])
    else
      var (freq, interval, byDay) := Described(parts[..|parts| - 1]);
      assert PartValid(parts[|parts| - 1]);
      match parts[|parts| - 1]
      case FreqPart(f) => (f, interval, byDay)
      case IntervalPart(n) => (freq, n.value, byDay)
      case ByDayPart(days) => (freq, interval,
          byDay + seq(|days|, i requires 0 <= i < |days| && days[i].Some? => days[i].value))
  }

  predicate AllValid(parts: seq<RulePart>) { forall i :: 0 <= i < |parts| ==> PartValid(parts[i]) }

  /** Of repeated frequencies and intervals the last counts; the interval is one when none is given. */
  lemma {:induction false} LastPartCounts(parts: seq<RulePart>, k: nat)
    requires AllValid(parts)
    requires k <= |parts| && (k < |parts| ==> parts[k].FreqPart? || parts[k].IntervalPart?)
    requires forall j :: k < j < |parts| && k < |parts| ==>
        parts[j].FreqPart? != parts[k].FreqPart? || parts[j].ByDayPart?
    requires k == |parts| ==> forall j :: 0 <= j < |parts| ==> !parts[j].IntervalPart?
    ensures k == |parts| ==> Described(parts).1 == 1
    ensures k < |parts| && parts[k].FreqPart? ==> Described(parts).0 == parts[k].freq
    ensures k < |parts| && parts[k].IntervalPart? ==> Described(parts).1 == parts[k].n.value
    decreases |parts|
  {
    var n := |parts| - 1;
    if n >= 0 && k != n {
      LastPartCounts(parts[..n], if k < n then k else n);
    }
  }

  /** Every weekday of every list is one of the rule's. */
  lemma {:induction false} WeekdaysAddUp(parts: seq<RulePart>, w: nat)
    requires AllValid(parts)
    ensures w in Described(parts).2 <==> exists i :: 0 <= i < |parts| && Lists(parts[i], w)
    decreases |parts|
  {
    if parts != [] {
      var n := |parts| - 1;
      WeekdaysAddUp(parts[..n], w);
      assert PartValid(parts[n]);
      if parts[n].ByDayPart? { ListedDay(parts[n], w); }
      assert forall i :: 0 <= i < n ==> parts[..n][i] == parts[i];
    }
  }

  predicate Lists(p: RulePart, w: nat) { p.ByDayPart? && Some(w) in p.days }

  lemma ListedDay(p: RulePart, w: nat)
    requires PartValid(p) && p.ByDayPart?
    ensures Lists(p, w) <==>
      w in seq(|p.days|, i requires 0 <= i < |p.days| && p.days[i].Some? => p.days[i].value)
  {
    var days := seq(|p.days|, i requires 0 <= i < |p.days| && p.days[i].Some? => p.days[i].value);
    if Lists(p, w) {
      var i :| 0 <= i < |p.days| && p.days[i] == Some(w);
      assert days[i] == w;
    }
  }

  /** A rule comes of parts that are all valid, have a frequency, and weekdays for a weekly one only; then
      it is well formed. */
  method ParseRule(parts: seq<RulePart>) returns (r: Option<Rule>)
    ensures r.Some? ==> WellFormed(r.value)
    ensures r.Some? <==>
      && (forall i :: 0 <= i < |parts| ==> PartValid(parts[i]))
      && Described(parts).0.Some? && (Described(parts).2 != [] ==> Described(parts).0.value == Weekly)
    ensures r.Some? ==> (Some(r.value.freq), r.value.interval, r.value.byDay) == Described(parts)
  {
    var freq: Option<Freq>, interval: nat, byDay: seq<nat> := None, 1, [];
    for i := 0 to |parts|
      invariant forall k :: 0 <= k < i ==> PartValid(parts[k])
      invariant (freq, interval, byDay) == Described(parts[..i])
      invariant 1 <= interval <= 366 && forall k :: 0 <= k < |byDay| ==> byDay[k] < 7
    {
      assert parts[..i + 1][..i] == parts[..i];
      if !PartValid(parts[i]) { return None; }
      match parts[i] {
        case FreqPart(f) => freq := f;
        case IntervalPart(n) => interval := n.value;
        case ByDayPart(days) =>
          byDay := byDay + seq(|days|, k requires 0 <= k < |days| && days[k].Some? => days[k].value);
      }
    }
    assert parts[..|parts|] == parts;
    if freq.None? || (byDay != [] && freq.value != Weekly) { return None; }
    r := Some(Rule(freq.value, interval, byDay));
  }

  // ---- days -----------------------------------------------------------------------------------

  const DAY: int := 86400
  const CAP: nat := 20000

  function DayOf(t: Instant): int { t / DAY }

  /** The time of day an occurrence keeps: hours and minutes, no seconds. */
  function TimeOfDay(t: Instant): (s: int)
    ensures 0 <= s < DAY
  {
    (t % DAY) / 60 * 60
  }

  function At(anchor: Instant, day: int): Instant { day * DAY + TimeOfDay(anchor) }

  lemma AtParts(anchor: Instant, day: int)
    ensures DayOf(At(anchor, day)) == day && TimeOfDay(At(anchor, day)) == TimeOfDay(anchor)
  {
  }

  /** An occurrence is at the full minute of the anchor. */
  lemma AtFullMinute(anchor: Instant, day: int)
    ensures At(anchor, day) % 60 == 0 && 0 <= anchor % DAY - At(anchor, day) % DAY < 60
  {
  }

  // ---- the recurrence set ---------------------------------------------------------------------

  /** The weekdays of a weekly rule: as listed, or that of the anchor. */
  function Days(r: Rule, anchor: int): seq<nat> { if r.byDay == [] then [Weekday(anchor)] else r.byDay }

  /** The occurrence of a monthly rule in a month: the anchor's day, or the month's last. */
  function MonthlyDay(anchor: int, month: int): int {
    MonthStart(month) + Min(DayOfMonth(anchor), Length(month)) - 1
  }

  /** In a week of the rule, on a weekday of the rule. */
  predicate Eligible(r: Rule, anchor: int, day: int)
    requires r.interval > 0
  {
    WeeksBetween(anchor, day) % r.interval == 0 && Weekday(day) in Days(r, anchor)
  }

  /** The days a rule recurs on, counted from the anchor, which itself is not one of them. */
  ghost predicate InSet(r: Rule, anchor: int, day: int)
    requires r.interval > 0
  {
    && day > anchor
    && match r.freq
       case Daily => (day - anchor) % r.interval == 0
       case Weekly => Eligible(r, anchor, day)
       case Monthly =>
         && MonthOf(day) > MonthOf(anchor)
         && (MonthOf(day) - MonthOf(anchor)) % r.interval == 0
         && day == MonthlyDay(anchor, MonthOf(day))
  }

  /** next is the first day of the set after cur. */
  ghost predicate FirstAfter(r: Rule, anchor: int, cur: int, next: int)
    requires r.interval > 0
  {
    && InSet(r, anchor, next)
    && next > cur
    && forall day :: InSet(r, anchor, day) && day > cur ==> next <= day
  }

  // ---- multiples ------------------------------------------------------------------------------

  lemma Multiple(q: int, m: nat)
    requires m > 0
    ensures (q * m) % m == 0
  {
    var x := q * m;
    assert x == (x / m) * m + x % m;
    var d := q - x / m;
    assert d * m == x % m;
  }

  lemma SumOfMultiples(a: int, b: int, m: nat)
    requires m > 0 && a % m == 0
    ensures (a + b) % m == 0 <==> b % m == 0
    ensures (b - a) % m == 0 <==> b % m == 0
  {
    if b % m == 0 {
      AddMultiples(a, b, m);
      AddMultiples(b, -a, m) by { Negated(a, m); }
    }
    Negated(a, m);
    if (a + b) % m == 0 { AddMultiples(a + b, -a, m); }
    if (b - a) % m == 0 { AddMultiples(b - a, a, m); }
  }

  lemma AddMultiples(a: int, b: int, m: nat)
    requires m > 0 && a % m == 0 && b % m == 0
    ensures (a + b) % m == 0
  {
    assert a == (a / m) * m && b == (b / m) * m;
    Multiple(a / m + b / m, m);
    assert a + b == (a / m + b / m) * m;
  }

  lemma Negated(a: int, m: nat)
    requires m > 0 && a % m == 0
    ensures (-a) % m == 0
  {
    Multiple(-(a / m), m);
    assert -a == -(a / m) * m;
  }

  lemma MultipleAtLeast(x: int, m: nat)
    requires m > 0 && x > 0 && x % m == 0
    ensures x >= m
  {
  }

  // ---- one step of the search -----------------------------------------------------------------

  /** The first eligible day from cur + d on, within 7 * interval + 7 days. */
  function SearchWeeks(r: Rule, anchor: int, cur: int, d: nat): Option<int>
    requires r.interval > 0
    decreases 7 * r.interval + 8 - d
  {
    if d > 7 * r.interval + 7 then None
    else if Eligible(r, anchor, cur + d) then Some(cur + d)
    else SearchWeeks(r, anchor, cur, d + 1)
  }

  /** The day the search moves to from cur. */
  function Step(r: Rule, anchor: int, cur: int): Option<int>
    requires r.interval > 0
  {
    match r.freq
    case Daily => Some(cur + r.interval)
    case Monthly => Some(MonthlyDay(anchor, MonthOf(cur) + r.interval))
    case Weekly => SearchWeeks(r, anchor, cur, 1)
  }

  lemma {:induction false} SearchFindsFirst(r: Rule, anchor: int, cur: int, d: nat, hit: nat)
    requires r.interval > 0 && d <= hit <= 7 * r.interval + 7 && Eligible(r, anchor, cur + hit)
    ensures SearchWeeks(r, anchor, cur, d).Some?
    ensures var found := SearchWeeks(r, anchor, cur, d).value;
            && cur + d <= found && Eligible(r, anchor, found)
            && forall day :: cur + d <= day < found ==> !Eligible(r, anchor, day)
    decreases hit - d
  {
    if !Eligible(r, anchor, cur + d) {
      SearchFindsFirst(r, anchor, cur, d + 1, hit);
    }
  }

  /** The inner search always succeeds: one interval of weeks on there is a day of the rule. */
  lemma SearchSucceeds(r: Rule, anchor: int, cur: int) returns (hit: nat)
    requires WellFormed(r) && WeeksBetween(anchor, cur) % r.interval == 0
    ensures 1 <= hit <= 7 * r.interval + 7 && Eligible(r, anchor, cur + hit)
  {
    var w := Days(r, anchor)[0];
    var target := WeekStart(cur) + 7 * r.interval + (w + 6) % 7;
    hit := target - cur;
    assert Weekday(target) == w by { WeekdayInWeek(cur, r.interval, w); }
    assert WeekStart(target) == WeekStart(cur) + 7 * r.interval;
    WeeksAreWhole(anchor, cur);
    WeeksAreWhole(anchor, target);
    assert WeeksBetween(anchor, target) == WeeksBetween(anchor, cur) + r.interval;
    Multiple(1, r.interval);
    SumOfMultiples(r.interval, WeeksBetween(anchor, cur), r.interval);
  }

  lemma WeekdayInWeek(cur: int, weeks: int, w: nat)
    requires w < 7
    ensures Weekday(WeekStart(cur) + 7 * weeks + (w + 6) % 7) == w
  {
    var m := WeekStart(cur);
    assert (m + 6) % 7 == 1;
    assert (m + 7 * weeks + (w + 6) % 7 + 6) % 7 == w;
  }

  /** Every step of the search goes to the first day of the set after the day it is at. */
  lemma StepIsFirstAfter(r: Rule, anchor: int, cur: int)
    requires WellFormed(r) && (cur == anchor || InSet(r, anchor, cur))
    ensures Step(r, anchor, cur).Some? && FirstAfter(r, anchor, cur, Step(r, anchor, cur).value)
  {
    match r.freq
    case Daily => DailyStep(r, anchor, cur);
    case Weekly => WeeklyStep(r, anchor, cur);
    case Monthly => MonthlyStep(r, anchor, cur);
  }

  lemma DailyStep(r: Rule, anchor: int, cur: int)
    requires WellFormed(r) && r.freq == Daily && (cur == anchor || InSet(r, anchor, cur))
    ensures FirstAfter(r, anchor, cur, cur + r.interval)
  {
    Multiple(1, r.interval);
    SumOfMultiples(r.interval, cur - anchor, r.interval);
    forall day | InSet(r, anchor, day) && day > cur ensures cur + r.interval <= day {
      SumOfMultiples(cur - anchor, day - anchor, r.interval);
      MultipleAtLeast(day - cur, r.interval);
    }
  }

  lemma WeeklyStep(r: Rule, anchor: int, cur: int)
    requires WellFormed(r) && r.freq == Weekly && (cur == anchor || InSet(r, anchor, cur))
    ensures Step(r, anchor, cur).Some? && FirstAfter(r, anchor, cur, Step(r, anchor, cur).value)
  {
    assert WeeksBetween(anchor, cur) % r.interval == 0 by {
      if cur == anchor { Multiple(0, r.interval); } else { assert Eligible(r, anchor, cur); }
    }
    var hit := SearchSucceeds(r, anchor, cur);
    SearchFindsFirst(r, anchor, cur, 1, hit);
  }

  lemma MonthlyStep(r: Rule, anchor: int, cur: int)
    requires WellFormed(r) && r.freq == Monthly && (cur == anchor || InSet(r, anchor, cur))
    ensures FirstAfter(r, anchor, cur, MonthlyDay(anchor, MonthOf(cur) + r.interval))
  {
    var m0, m := MonthOf(anchor), MonthOf(cur);
    var next := MonthlyDay(anchor, m + r.interval);
    Multiple(0, r.interval);
    Multiple(1, r.interval);
    SumOfMultiples(m - m0, r.interval, r.interval);
    MonthlyInSet(r, anchor, m + r.interval);
    DaysFollowMonths(cur, next);
    forall day | InSet(r, anchor, day) && day > cur ensures next <= day {
      MonthlyLater(r, anchor, cur, day);
    }
  }

  lemma MonthlyLater(r: Rule, anchor: int, cur: int, day: int)
    requires WellFormed(r) && r.freq == Monthly && (cur == anchor || InSet(r, anchor, cur))
    requires InSet(r, anchor, day) && day > cur
    requires MonthOf(MonthlyDay(anchor, MonthOf(cur) + r.interval)) == MonthOf(cur) + r.interval
    ensures MonthlyDay(anchor, MonthOf(cur) + r.interval) <= day
  {
    var m0, m, k := MonthOf(anchor), MonthOf(cur), MonthOf(day);
    if k < m { DaysFollowMonths(day, cur); }
    Multiple(0, r.interval);
    SumOfMultiples(m - m0, k - m0, r.interval);
    MultipleAtLeast(k - m, r.interval);
    if k > m + r.interval { DaysFollowMonths(MonthlyDay(anchor, m + r.interval), day); }
  }

  lemma MonthlyInSet(r: Rule, anchor: int, month: int)
    requires WellFormed(r) && r.freq == Monthly
    requires month > MonthOf(anchor) && (month - MonthOf(anchor)) % r.interval == 0
    ensures InSet(r, anchor, MonthlyDay(anchor, month)) && MonthOf(MonthlyDay(anchor, month)) == month
    ensures DayOfMonth(MonthlyDay(anchor, month)) == Min(DayOfMonth(anchor), Length(month))
  {
    DateRoundTrip(month, Min(DayOfMonth(anchor), Length(month)));
    DaysFollowMonths(anchor, MonthlyDay(anchor, month));
  }

  lemma DaysFollowMonths(a: int, b: int)
    requires MonthOf(a) < MonthOf(b)
    ensures a < b
  {
    if MonthOf(a) + 1 < MonthOf(b) { MonthStartMonotone(MonthOf(a) + 1, MonthOf(b)); }
  }

  // ---- the search -----------------------------------------------------------------------------

  /** The k-th day the search visits; the anchor is the 0th. */
  function Occurrence(r: Rule, anchor: int, k: nat): int
    requires WellFormed(r)
  {
    if k == 0 then anchor else StepFrom(r, anchor, Occurrence(r, anchor, k - 1))
  }

  function StepFrom(r: Rule, anchor: int, cur: int): int
    requires WellFormed(r)
  {
    match Step(r, anchor, cur)
    case Some(day) => day
    case None => cur
  }

  /** The search visits the whole set, in order. */
  lemma {:induction false} OccurrenceIsFirstAfter(r: Rule, anchor: int, k: nat)
    requires WellFormed(r)
    ensures Step(r, anchor, Occurrence(r, anchor, k)) == Some(Occurrence(r, anchor, k + 1))
    ensures FirstAfter(r, anchor, Occurrence(r, anchor, k), Occurrence(r, anchor, k + 1))
  {
    if k > 0 { OccurrenceIsFirstAfter(r, anchor, k - 1); }
    StepIsFirstAfter(r, anchor, Occurrence(r, anchor, k));
  }

  lemma OccurrenceLater(r: Rule, anchor: int, k: nat)
    requires WellFormed(r)
    ensures Occurrence(r, anchor, k) < Occurrence(r, anchor, k + 1)
  {
    OccurrenceIsFirstAfter(r, anchor, k);
  }

  lemma {:induction false} OccurrencesIncrease(r: Rule, anchor: int, j: nat, k: nat)
    requires WellFormed(r) && j < k
    ensures Occurrence(r, anchor, j) < Occurrence(r, anchor, k)
    decreases k
  {
    OccurrenceLater(r, anchor, k - 1);
    if j < k - 1 { OccurrencesIncrease(r, anchor, j, k - 1); }
  }

  /** The instants the search visits. */
  function Visits(r: Rule, start: Instant): nat -> Instant
    requires WellFormed(r)
  {
    (k: nat) => At(start, Occurrence(r, DayOf(start), k))
  }

  /** The first of the values after the k-th that is past `after`, among those up to the cap. */
  function FirstPast(f: nat -> Instant, after: Instant, k: nat): Option<Instant>
    requires k <= CAP
    decreases CAP - k
  {
    if k == CAP then None
    else if f(k + 1) > after then Some(f(k + 1))
    else FirstPast(f, after, k + 1)
  }

  /** The search from `start`, up to the cap, for an occurrence that is past `after`. */
  function Next(r: Rule, start: Instant, after: Instant): Option<Instant>
    requires WellFormed(r)
  {
    FirstPast(Visits(r, start), after, 0)
  }

  /** Next in the source's form. */
  method FindNext(r: Rule, start: Instant, after: Instant) returns (res: Option<Instant>)
    requires WellFormed(r)
    ensures res == Next(r, start, after)
  {
    var anchor := DayOf(start);
    var anchorDay := DayOfMonth(anchor);
    var cur := anchor;
    var i := 0;
    while i < CAP
      invariant 0 <= i <= CAP
      invariant cur == Occurrence(r, anchor, i)
      invariant Next(r, start, after) == FirstPast(Visits(r, start), after, i)
    {
      var next := NextStep(r, anchor, anchorDay, cur);
      OccurrenceIsStep(r, anchor, i);
      if next.None? {
        return None;
      }
      if At(start, next.value) > after {
        return Some(At(start, next.value));
      }
      cur := next.value;
      i := i + 1;
    }
    return None;
  }

  lemma OccurrenceIsStep(r: Rule, anchor: int, k: nat)
    requires WellFormed(r)
    ensures Step(r, anchor, Occurrence(r, anchor, k)) == Some(Occurrence(r, anchor, k + 1))
  {
    OccurrenceIsFirstAfter(r, anchor, k);
  }

  /** One pass of the loop: the switch on the frequency. */
  method NextStep(r: Rule, anchor: int, anchorDay: int, cur: int) returns (next: Option<int>)
    requires WellFormed(r) && anchorDay == DayOfMonth(anchor)
    ensures next == Step(r, anchor, cur)
  {
    match r.freq {
      case Daily =>
        return Some(DateDay(YearOf(MonthOf(cur)), MonthOf(cur) % 12 + 1, DayOfMonth(cur) + r.interval));
      case Monthly =>
        next := NextMonthly(r, anchor, anchorDay, cur);
      case Weekly =>
        next := NextWeekly(r, anchor, cur);
    }
  }

  /** The year and month an interval on: months past December are carried into years. */
  method CarryMonths(year: int, month: int) returns (y: int, mo: int)
    requires month >= 1
    ensures 1 <= mo <= 12 && 12 * y + mo == 12 * year + month
  {
    y, mo := year, month;
    while mo > 12
      invariant mo >= 1 && 12 * y + mo == 12 * year + month
    {
      mo := mo - 12;
      y := y + 1;
    }
  }

  /** The occurrence an interval of months on, clamped to the length of its month. */
  method NextMonthly(r: Rule, anchor: int, anchorDay: int, cur: int) returns (next: Option<int>)
    requires WellFormed(r) && anchorDay == DayOfMonth(anchor)
    ensures next == Some(MonthlyDay(anchor, MonthOf(cur) + r.interval))
  {
    var y, mo := CarryMonths(YearOf(MonthOf(cur)), MonthOf(cur) % 12 + 1 + r.interval);
    ghost var month := MonthOf(cur) + r.interval;
    assert 12 * y + mo - 1 == month;
    LastDayOfMonth(month);
    var lastDay := DateDay(y, mo + 1, 0);
    var day := anchorDay;
    if day > DayOfMonth(lastDay) {
      day := DayOfMonth(lastDay);
    }
    return Some(DateDay(y, mo, day));
  }

  /** Day 0 of the next month is the last of this one. */
  lemma LastDayOfMonth(month: int)
    ensures DayOfMonth(MonthStart(month + 1) - 1) == Length(month)
  {
    MonthStartStep(month);
    DateRoundTrip(month, Length(month));
  }

  method NextWeekly(r: Rule, anchor: int, cur: int) returns (next: Option<int>)
    requires WellFormed(r)
    ensures next == SearchWeeks(r, anchor, cur, 1)
  {
    var days := r.byDay;
    if |days| == 0 {
      days := [Weekday(anchor)];
    }
    next := None;
    var d := 1;
    while d <= 7 * r.interval + 7
      invariant 1 <= d <= 7 * r.interval + 8
      invariant next.None? && SearchWeeks(r, anchor, cur, 1) == SearchWeeks(r, anchor, cur, d)
    {
      var c := DateDay(YearOf(MonthOf(cur)), MonthOf(cur) % 12 + 1, DayOfMonth(cur) + d);
      assert c == cur + d;
      if WeeksBetween(anchor, c) % r.interval == 0 {
        var j := 0;
        while j < |days|
          invariant 0 <= j <= |days|
          invariant next == if Weekday(c) in days[..j] then Some(c) else None
        {
          if Weekday(c) == days[j] {
            next := Some(c);
          }
          j := j + 1;
        }
        assert days[..|days|] == days;
        if next.Some? {
          return;
        }
      }
      d := d + 1;
    }
  }

  // ---- what Next promises ---------------------------------------------------------------------

  ghost predicate Increasing(f: nat -> Instant) {
    forall j: nat, k: nat :: j < k ==> f(j) < f(k)
  }

  lemma VisitsIncrease(r: Rule, start: Instant)
    requires WellFormed(r)
    ensures Increasing(Visits(r, start))
  {
    var f := Visits(r, start);
    forall j: nat, k: nat | j < k ensures f(j) < f(k) {
      OccurrencesIncrease(r, DayOf(start), j, k);
    }
  }

  /** The place at which the search stops. */
  lemma {:induction false} FirstPastIndex(f: nat -> Instant, after: Instant, first: nat) returns (k: nat)
    requires first <= CAP && (first > 0 ==> f(first) <= after)
    ensures FirstPast(f, after, first).None? ==> k == CAP && (first < CAP ==> f(CAP) <= after)
    ensures FirstPast(f, after, first).Some? ==>
              && first < k <= CAP && FirstPast(f, after, first) == Some(f(k))
              && f(k) > after && (k > 1 ==> f(k - 1) <= after)
    decreases CAP - first
  {
    if first == CAP {
      k := CAP;
    } else if f(first + 1) > after {
      k := first + 1;
    } else {
      k := FirstPastIndex(f, after, first + 1);
    }
  }

  lemma Reflects(f: nat -> Instant, j: nat, k: nat)
    requires Increasing(f) && f(j) < f(k)
    ensures j < k
  {
    if k < j { assert false; }
  }

  /** From the k-th value on, the n-th is the result when it is the first past `after`. */
  lemma {:induction false} FirstPastAt(f: nat -> Instant, after: Instant, k: nat, n: nat)
    requires Increasing(f) && k < n <= CAP && f(n) > after && (n > 1 ==> f(n - 1) <= after)
    ensures FirstPast(f, after, k) == Some(f(n))
    decreases n - k
  {
    if k + 1 < n {
      assert k + 1 == n - 1 || f(k + 1) < f(n - 1);
      FirstPastAt(f, after, k + 1, n);
    }
  }

  /** Next is strict and least: it is the earliest instant of the recurrence set that is after both the
      anchor's day and `after`. */
  lemma NextIsLeast(r: Rule, start: Instant, after: Instant)
    requires WellFormed(r) && Next(r, start, after).Some?
    ensures var t := Next(r, start, after).value;
            && t > after && t == At(start, DayOf(t)) && InSet(r, DayOf(start), DayOf(t))
            && forall day :: InSet(r, DayOf(start), day) && At(start, day) > after ==> DayOf(t) <= day
  {
    var k := FirstPastIndex(Visits(r, start), after, 0);
    var previous, next := NextVisit(r, start, after, k);
    AtParts(start, next);
    LeastFromPrevious(r, start, after, previous, next, k == 1);
  }

  /** The day Next is on, and the day the search visits before it. */
  lemma NextVisit(r: Rule, start: Instant, after: Instant, k: nat) returns (previous: int, next: int)
    requires WellFormed(r) && k > 0
    requires Next(r, start, after) == Some(Visits(r, start)(k)) && Visits(r, start)(k) > after
    requires k > 1 ==> Visits(r, start)(k - 1) <= after
    ensures Next(r, start, after) == Some(At(start, next)) && At(start, next) > after
    ensures FirstAfter(r, DayOf(start), previous, next)
    ensures if k == 1 then previous == DayOf(start) else At(start, previous) <= after
  {
    previous, next := Occurrence(r, DayOf(start), k - 1), Occurrence(r, DayOf(start), k);
    OccurrenceIsFirstAfter(r, DayOf(start), k - 1);
  }

  lemma LeastFromPrevious(r: Rule, start: Instant, after: Instant, previous: int, next: int, first: bool)
    requires WellFormed(r) && FirstAfter(r, DayOf(start), previous, next)
    requires if first then previous == DayOf(start) else At(start, previous) <= after
    ensures forall day :: InSet(r, DayOf(start), day) && At(start, day) > after ==> next <= day
  {
  }

  /** The search gives up exactly when the first 20000 days of the set have all passed. */
  lemma NextGivesUp(r: Rule, start: Instant, after: Instant)
    requires WellFormed(r)
    ensures Next(r, start, after).None? <==> At(start, Occurrence(r, DayOf(start), CAP)) <= after
  {
    var f := Visits(r, start);
    VisitsIncrease(r, start);
    var k := FirstPastIndex(f, after, 0);
    if Next(r, start, after).Some? { assert k == CAP || f(k) < f(CAP); }
    assert f(CAP) == At(start, Occurrence(r, DayOf(start), CAP));
  }

  // ---- re-anchoring ---------------------------------------------------------------------------

  /** The month of the k-th monthly occurrence. */
  function MonthAt(r: Rule, anchor: int, k: nat): int { MonthOf(anchor) + k * r.interval }

  /** No month the rule visits is too short for the anchor's day. */
  ghost predicate NeverClamped(r: Rule, anchor: int) {
    r.freq == Monthly ==> forall k: nat :: DayOfMonth(anchor) <= Length(MonthAt(r, anchor, k))
  }

  /** Counting from an occurrence gives the rest of the set. */
  lemma SameSetFromOccurrence(r: Rule, anchor: int, mid: int, day: int)
    requires WellFormed(r) && InSet(r, anchor, mid) && day > mid
    requires r.freq == Monthly ==> DayOfMonth(mid) == DayOfMonth(anchor)
    ensures InSet(r, mid, day) <==> InSet(r, anchor, day)
  {
    match r.freq
    case Daily => SumOfMultiples(mid - anchor, day - anchor, r.interval);
    case Weekly => SameWeeks(r, anchor, mid, day);
    case Monthly => SameMonths(r, anchor, mid, day);
  }

  lemma SameWeeks(r: Rule, anchor: int, mid: int, day: int)
    requires WellFormed(r) && Eligible(r, anchor, mid)
    ensures Eligible(r, mid, day) <==> Eligible(r, anchor, day)
  {
    WeeksAreWhole(anchor, mid);
    WeeksAreWhole(anchor, day);
    WeeksAreWhole(mid, day);
    assert WeeksBetween(mid, day) == WeeksBetween(anchor, day) - WeeksBetween(anchor, mid);
    SumOfMultiples(WeeksBetween(anchor, mid), WeeksBetween(anchor, day), r.interval);
    assert Days(r, mid) == Days(r, anchor);
  }

  lemma SameMonths(r: Rule, anchor: int, mid: int, day: int)
    requires WellFormed(r) && r.freq == Monthly && InSet(r, anchor, mid) && day > mid
    requires DayOfMonth(mid) == DayOfMonth(anchor)
    ensures InSet(r, mid, day) <==> InSet(r, anchor, day)
  {
    var m0, m, k := MonthOf(anchor), MonthOf(mid), MonthOf(day);
    SumOfMultiples(m - m0, k - m0, r.interval);
    assert (k - m) == (k - m0) - (m - m0);
    if k < m { DaysFollowMonths(day, mid); }
    assert MonthlyDay(mid, k) == MonthlyDay(anchor, k);
  }

  /** A search of the rule's set: each day is the first of the set after the one before it. */
  ghost predicate Searches(r: Rule, anchor: int, f: nat -> int)
    requires WellFormed(r)
  {
    f(0) == anchor && (forall k: nat :: FirstAfter(r, anchor, f(k), f(k + 1))) && Increasing(f)
  }

  function VisitedDays(r: Rule, anchor: int): nat -> int
    requires WellFormed(r)
  {
    (k: nat) => Occurrence(r, anchor, k)
  }

  lemma VisitedDaysSearch(r: Rule, anchor: int)
    requires WellFormed(r)
    ensures Searches(r, anchor, VisitedDays(r, anchor))
  {
    var f := VisitedDays(r, anchor);
    forall k: nat ensures FirstAfter(r, anchor, f(k), f(k + 1)) { OccurrenceIsFirstAfter(r, anchor, k); }
    forall j: nat, k: nat | j < k ensures f(j) < f(k) { OccurrencesIncrease(r, anchor, j, k); }
  }

  lemma {:induction false} SearchesAgree(r: Rule, anchor: int, mid: int, f: nat -> int, g: nat -> int, j: nat, m: nat)
    requires WellFormed(r) && Searches(r, anchor, f) && Searches(r, mid, g)
    requires j > 0 && mid == f(j) && InSet(r, anchor, mid)
    requires r.freq == Monthly ==> DayOfMonth(mid) == DayOfMonth(anchor)
    ensures g(m) == f(j + m)
    decreases m
  {
    if m > 0 {
      SearchesAgree(r, anchor, mid, f, g, j, m - 1);
      assert m > 1 ==> f(j) < f(j + m - 1);
      var cur := f(j + m - 1);
      assert FirstAfter(r, anchor, cur, f(j + m - 1 + 1)) && FirstAfter(r, mid, cur, g(m - 1 + 1));
      SameFirstAfter(r, anchor, mid, cur, f(j + m), g(m));
    }
  }

  /** The first day after cur is the same in both sets. */
  lemma SameFirstAfter(r: Rule, anchor: int, mid: int, cur: int, a: int, b: int)
    requires WellFormed(r) && InSet(r, anchor, mid) && cur >= mid
    requires r.freq == Monthly ==> DayOfMonth(mid) == DayOfMonth(anchor)
    requires FirstAfter(r, anchor, cur, a) && FirstAfter(r, mid, cur, b)
    ensures a == b
  {
    SameSetFromOccurrence(r, anchor, mid, a);
    SameSetFromOccurrence(r, anchor, mid, b);
  }

  /** Late firing stays on schedule: counting from an occurrence that was returned gives what counting
      from the start gives. */
  lemma ReanchoringKeepsSchedule(r: Rule, start: Instant, a1: Instant, a2: Instant)
    requires WellFormed(r) && Next(r, start, a1).Some? && a2 >= Next(r, start, a1).value
    requires r.freq == Monthly ==> DayOfMonth(DayOf(Next(r, start, a1).value)) == DayOfMonth(DayOf(start))
    ensures Next(r, start, a2).Some? ==> Next(r, Next(r, start, a1).value, a2) == Next(r, start, a2)
  {
    var t := Next(r, start, a1).value;
    var f, g := Visits(r, start), Visits(r, t);
    VisitsIncrease(r, start);
    VisitsIncrease(r, t);
    var j := FirstPastIndex(f, a1, 0);
    VisitsShift(r, start, t, j);
    if Next(r, start, a2).Some? { FirstPastShift(f, g, a2, j); }
  }

  /** A visit is on a day of the set, at the time of day of the start. */
  lemma VisitParts(r: Rule, start: Instant, t: Instant, j: nat)
    requires WellFormed(r) && j > 0 && t == Visits(r, start)(j)
    ensures DayOf(t) == VisitedDays(r, DayOf(start))(j) && TimeOfDay(t) == TimeOfDay(start)
    ensures InSet(r, DayOf(start), DayOf(t))
  {
    AtParts(start, VisitedDays(r, DayOf(start))(j));
    OccurrenceIsFirstAfter(r, DayOf(start), j - 1);
  }

  lemma VisitsShift(r: Rule, start: Instant, t: Instant, j: nat)
    requires WellFormed(r) && j > 0 && t == Visits(r, start)(j)
    requires r.freq == Monthly ==> DayOfMonth(DayOf(t)) == DayOfMonth(DayOf(start))
    ensures forall m: nat :: Visits(r, t)(m) == Visits(r, start)(j + m)
  {
    VisitParts(r, start, t, j);
    forall m: nat ensures Visits(r, t)(m) == Visits(r, start)(j + m) { VisitShifts(r, start, t, j, m); }
  }

  /** One visit of the later search, at the time of day both keep. */
  lemma VisitShifts(r: Rule, start: Instant, t: Instant, j: nat, m: nat)
    requires WellFormed(r) && j > 0 && DayOf(t) == VisitedDays(r, DayOf(start))(j)
    requires TimeOfDay(t) == TimeOfDay(start) && InSet(r, DayOf(start), DayOf(t))
    requires r.freq == Monthly ==> DayOfMonth(DayOf(t)) == DayOfMonth(DayOf(start))
    ensures Visits(r, t)(m) == Visits(r, start)(j + m)
  {
    var f, g := VisitedDays(r, DayOf(start)), VisitedDays(r, DayOf(t));
    VisitedDaysSearch(r, DayOf(start));
    VisitedDaysSearch(r, DayOf(t));
    SearchesAgree(r, DayOf(start), DayOf(t), f, g, j, m);
    SameAt(start, t, g(m));
  }

  lemma SameAt(a: Instant, b: Instant, day: int)
    requires TimeOfDay(a) == TimeOfDay(b)
    ensures At(a, day) == At(b, day)
  {
  }

  lemma FirstPastShift(f: nat -> Instant, g: nat -> Instant, after: Instant, j: nat)
    requires Increasing(f) && Increasing(g) && (forall m: nat :: g(m) == f(j + m))
    requires j > 0 && f(j) <= after && FirstPast(f, after, 0).Some?
    ensures FirstPast(g, after, 0) == FirstPast(f, after, 0)
  {
    var k := FirstPastIndex(f, after, 0);
    Reflects(f, j, k);
    assert g(k - j) == f(k) && g(k - j - 1) == f(k - 1);
    FirstPastAt(g, after, 0, k - j);
  }

  // ---- exactly which rules keep their schedule ------------------------------------------------

  /** Whenever the occurrences are counted from one that was returned, the later ones stay the same. */
  ghost predicate KeepsSchedule(r: Rule, start: Instant)
    requires WellFormed(r)
  {
    forall a1: Instant, a2: Instant ::
      Next(r, start, a1).Some? && Next(r, start, a2).Some? && a2 >= Next(r, start, a1).value ==>
        Next(r, Next(r, start, a1).value, a2) == Next(r, start, a2)
  }

  lemma MonthAtNext(r: Rule, anchor: int, k: nat)
    ensures MonthAt(r, anchor, k + 1) == MonthAt(r, anchor, k) + r.interval
  {
  }

  /** The month and day of an occurrence, given the month of the one before it. */
  lemma MonthlyFollows(r: Rule, anchor: int, k: nat, before: int, month: int)
    requires WellFormed(r) && r.freq == Monthly
    requires MonthOf(Occurrence(r, anchor, k)) == before && month == before + r.interval
    ensures MonthOf(Occurrence(r, anchor, k + 1)) == month
    ensures DayOfMonth(Occurrence(r, anchor, k + 1)) == Min(DayOfMonth(anchor), Length(month))
  {
    DateRoundTrip(month, Min(DayOfMonth(anchor), Length(month)));
    assert Occurrence(r, anchor, k + 1) == MonthlyDay(anchor, month);
  }

  lemma {:induction false} MonthlyOccurrence(r: Rule, anchor: int, k: nat)
    requires WellFormed(r) && r.freq == Monthly
    ensures MonthOf(Occurrence(r, anchor, k)) == MonthAt(r, anchor, k)
    ensures k > 0 ==> DayOfMonth(Occurrence(r, anchor, k)) == Min(DayOfMonth(anchor), Length(MonthAt(r, anchor, k)))
  {
    if k == 0 {
      assert MonthAt(r, anchor, 0) == MonthOf(anchor);
    } else {
      var before, month := MonthAt(r, anchor, k - 1), MonthAt(r, anchor, k);
      MonthlyOccurrence(r, anchor, k - 1);
      MonthAtNext(r, anchor, k - 1);
      MonthlyFollows(r, anchor, k - 1, before, month);
    }
  }

  /** A rule that is clamped at all is clamped within 400 years' worth of steps. */
  lemma ClampedEarly(r: Rule, anchor: int, k: nat) returns (j: nat)
    requires WellFormed(r) && r.freq == Monthly
    requires DayOfMonth(anchor) > Length(MonthAt(r, anchor, k))
    ensures 0 < j < 4800 && DayOfMonth(anchor) > Length(MonthAt(r, anchor, j))
  {
    j := k % 4800;
    var q := k / 4800;
    Distribute(q, j, k, r.interval);
    LengthsRepeat(MonthAt(r, anchor, j), q * r.interval);
    assert MonthAt(r, anchor, 0) == MonthOf(anchor);
  }

  lemma Distribute(q: nat, j: nat, k: nat, m: nat)
    requires k == 4800 * q + j
    ensures k * m == j * m + 4800 * (q * m)
  {
  }

  /** A clamped occurrence, used as the new anchor, loses the day for good. */
  lemma ClampingShifts(r: Rule, start: Instant, j: nat, k: nat)
    requires WellFormed(r) && r.freq == Monthly && 0 < j < k <= CAP
    requires Length(MonthAt(r, DayOf(start), j)) < DayOfMonth(DayOf(start)) <= Length(MonthAt(r, DayOf(start), k))
    ensures !KeepsSchedule(r, start)
  {
    var f := Visits(r, start);
    var a1, a2 := f(j) - 1, f(k) - 1;
    VisitsIncrease(r, start);
    JustBefore(f, j);
    JustBefore(f, k);
    assert Next(r, start, a1) == Some(f(j)) && Next(r, start, a2) == Some(f(k));
    assert f(j) < f(k);
    LosesTheDay(r, start, j, k, a2);
  }

  lemma JustBefore(f: nat -> Instant, k: nat)
    requires Increasing(f) && 0 < k <= CAP
    ensures FirstPast(f, f(k) - 1, 0) == Some(f(k))
  {
    assert f(k - 1) < f(k);
    FirstPastAt(f, f(k) - 1, 0, k);
  }

  lemma LosesTheDay(r: Rule, start: Instant, j: nat, k: nat, after: Instant)
    requires WellFormed(r) && r.freq == Monthly && 0 < j < k
    requires Length(MonthAt(r, DayOf(start), j)) < DayOfMonth(DayOf(start)) <= Length(MonthAt(r, DayOf(start), k))
    ensures Next(r, Visits(r, start)(j), after) != Some(Visits(r, start)(k))
  {
    var x, y := Occurrence(r, DayOf(start), j), Occurrence(r, DayOf(start), k);
    AtParts(start, x);
    AtParts(start, y);
    MonthlyOccurrence(r, DayOf(start), j);
    MonthlyOccurrence(r, DayOf(start), k);
    var t := At(start, x);
    if Next(r, t, after) == Some(At(start, y)) {
      NextIsLeast(r, t, after);
      SmallerDay(r, x, y);
    }
  }

  lemma SmallerDay(r: Rule, anchor: int, day: int)
    requires WellFormed(r) && r.freq == Monthly && InSet(r, anchor, day)
    ensures DayOfMonth(day) <= DayOfMonth(anchor)
  {
    DateRoundTrip(MonthOf(day), Min(DayOfMonth(anchor), Length(MonthOf(day))));
  }

  /** A rule keeps its schedule under re-anchoring exactly when no month it visits is too short for the
      day it started on: always for daily and weekly rules and for days 1 to 28. */
  lemma KeepsScheduleIffNeverClamped(r: Rule, start: Instant)
    requires WellFormed(r)
    ensures KeepsSchedule(r, start) <==> NeverClamped(r, DayOf(start))
    ensures r.freq != Monthly || DayOfMonth(DayOf(start)) <= 28 ==> KeepsSchedule(r, start)
  {
    var anchor := DayOf(start);
    if NeverClamped(r, anchor) {
      forall a1: Instant, a2: Instant |
        Next(r, start, a1).Some? && Next(r, start, a2).Some? && a2 >= Next(r, start, a1).value
        ensures Next(r, Next(r, start, a1).value, a2) == Next(r, start, a2)
      {
        UnclampedDay(r, start, a1);
        ReanchoringKeepsSchedule(r, start, a1, a2);
      }
    } else {
      var k: nat :| DayOfMonth(anchor) > Length(MonthAt(r, anchor, k));
      var j := ClampedEarly(r, anchor, k);
      LengthsRepeat(MonthOf(anchor), r.interval);
      assert MonthAt(r, anchor, 4800) == MonthOf(anchor) + 4800 * r.interval;
      ClampingShifts(r, start, j, 4800);
    }
  }

  lemma UnclampedDay(r: Rule, start: Instant, after: Instant)
    requires WellFormed(r) && Next(r, start, after).Some? && NeverClamped(r, DayOf(start))
    ensures r.freq == Monthly ==> DayOfMonth(DayOf(Next(r, start, after).value)) == DayOfMonth(DayOf(start))
  {
    if r.freq == Monthly {
      var k := FirstPastIndex(Visits(r, start), after, 0);
      AtParts(start, Occurrence(r, DayOf(start), k));
      MonthlyOccurrence(r, DayOf(start), k);
    }
  }

  /** An instant of the recurrence set counted from the first due time, which itself is one. */
  ghost predicate OnSet(r: Rule, first: Instant, due: Instant)
    requires WellFormed(r)
  {
    due == first || (due == At(first, DayOf(due)) && InSet(r, DayOf(first), DayOf(due)))
  }

  /** In a set that is never clamped every day is the anchor's day of its month. */
  lemma UnclampedMember(r: Rule, anchor: int, day: int)
    requires WellFormed(r) && NeverClamped(r, anchor) && InSet(r, anchor, day)
    ensures r.freq == Monthly ==> DayOfMonth(day) == DayOfMonth(anchor)
  {
    if r.freq == Monthly {
      var k := Quotient(MonthOf(day) - MonthOf(anchor), r.interval);
      LongEnough(r, anchor, k, MonthOf(day));
      DateRoundTrip(MonthOf(day), DayOfMonth(anchor));
    }
  }

  lemma Quotient(x: int, m: nat) returns (k: nat)
    requires m > 0 && x > 0 && x % m == 0
    ensures x == k * m
  {
    k := x / m;
  }

  lemma LongEnough(r: Rule, anchor: int, k: nat, month: int)
    requires r.freq == Monthly && NeverClamped(r, anchor) && month - MonthOf(anchor) == k * r.interval
    ensures DayOfMonth(anchor) <= Length(month)
  {
    assert MonthAt(r, anchor, k) == month;
  }

  /** Counting on from an instant of the set leads to its first instant after that day and `after`. */
  lemma NextStaysOnSet(r: Rule, first: Instant, due: Instant, after: Instant)
    requires WellFormed(r) && NeverClamped(r, DayOf(first)) && OnSet(r, first, due) && Next(r, due, after).Some?
    ensures var t := Next(r, due, after).value;
      && OnSet(r, first, t) && t > after && DayOf(t) > DayOf(due)
      && forall day :: InSet(r, DayOf(first), day) && day > DayOf(due) && At(first, day) > after ==> DayOf(t) <= day
  {
    NextIsLeast(r, due, after);
    if due != first {
      AtParts(first, DayOf(due));
      UnclampedMember(r, DayOf(first), DayOf(due));
      var t := Next(r, due, after).value;
      OnSetFrom(r, first, due, DayOf(t));
      forall day | InSet(r, DayOf(first), day) && day > DayOf(due) && At(first, day) > after ensures DayOf(t) <= day {
        OnSetFrom(r, first, due, day);
      }
    }
  }

  lemma OnSetFrom(r: Rule, first: Instant, due: Instant, day: int)
    requires WellFormed(r) && InSet(r, DayOf(first), DayOf(due)) && TimeOfDay(due) == TimeOfDay(first) &&
        day > DayOf(due)
    requires r.freq == Monthly ==> DayOfMonth(DayOf(due)) == DayOfMonth(DayOf(first))
    ensures InSet(r, DayOf(due), day) <==> InSet(r, DayOf(first), day)
    ensures At(due, day) == At(first, day)
  {
    SameSetFromOccurrence(r, DayOf(first), DayOf(due), day);
    SameAt(due, first, day);
  }

  // ---- a run of firings -----------------------------------------------------------------------

  /** The due times of a reminder that fires at the given instants, late or not. */
  function DueAfter(r: Rule, start: Instant, firings: seq<Instant>): Option<Instant>
    requires WellFormed(r)
  {
    if firings == [] then Some(start)
    else
      match DueAfter(r, start, firings[..|firings| - 1])
      case None => None
      case Some(due) => Next(r, due, firings[|firings| - 1])
  }

  /** Firings that each come after the due time they are for. */
  ghost predicate Firings(r: Rule, start: Instant, firings: seq<Instant>)
    requires WellFormed(r)
  {
    forall i :: 0 <= i < |firings| ==>
      DueAfter(r, start, firings[..i]).Some? && firings[i] >= DueAfter(r, start, firings[..i]).value
  }

  /** However late each firing is, the due time is the one the first anchor gives for the last firing. */
  lemma {:induction false} FiringsStayOnSchedule(r: Rule, start: Instant, firings: seq<Instant>)
    requires WellFormed(r) && NeverClamped(r, DayOf(start)) && firings != [] && Firings(r, start, firings)
    requires Next(r, start, firings[|firings| - 1]).Some?
    ensures DueAfter(r, start, firings) == Next(r, start, firings[|firings| - 1])
    decreases |firings|
  {
    var n := |firings| - 1;
    if n > 0 {
      var before, a1, a2 := firings[..n], firings[n - 1], firings[n];
      assert before[n - 1] == a1;
      FiringsPrefix(r, start, firings);
      DuePastFiring(r, start, before);
      EarlierHasNext(r, start, a1, a2);
      FiringsStayOnSchedule(r, start, before);
      UnclampedDay(r, start, a1);
      ReanchoringKeepsSchedule(r, start, a1, a2);
    }
  }

  lemma DuePastFiring(r: Rule, start: Instant, firings: seq<Instant>)
    requires WellFormed(r) && firings != [] && DueAfter(r, start, firings).Some?
    ensures DueAfter(r, start, firings).value > firings[|firings| - 1]
  {
    NextIsLeast(r, DueAfter(r, start, firings[..|firings| - 1]).value, firings[|firings| - 1]);
  }

  lemma FiringsPrefix(r: Rule, start: Instant, firings: seq<Instant>)
    requires WellFormed(r) && Firings(r, start, firings) && firings != []
    ensures Firings(r, start, firings[..|firings| - 1])
  {
    var before := firings[..|firings| - 1];
    forall i | 0 <= i < |before|
      ensures DueAfter(r, start, before[..i]).Some? && before[i] >= DueAfter(r, start, before[..i]).value
    {
      assert before[..i] == firings[..i];
    }
  }

  lemma EarlierHasNext(r: Rule, start: Instant, a: Instant, b: Instant)
    requires WellFormed(r) && Next(r, start, b).Some? && a <= b
    ensures Next(r, start, a).Some?
  {
    NextGivesUp(r, start, a);
    NextGivesUp(r, start, b);
  }
}
