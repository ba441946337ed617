/** What the schedules of the heartbeat engine mean on the calendar.  Dates and weekdays are found
    by counting day by day from Thursday, 1 January 1970, not by the arithmetic of the scheduler. */
module HeartbeatCalendar {
  import opened Prelude
  import opened HeartbeatSchedule
  import Config = HeartbeatConfig

  // ---------------------------------------------------------------------------------
  // Counting days
  // ---------------------------------------------------------------------------------

  /** A civil date; months are 1 to 12. */
  datatype Date = Date(year: int, month: int, day: int)

  function Days(year: int, month: int): int {
    match month
    case 2 => if year % 400 == 0 || (year % 4 == 0 && year % 100 != 0) then 29 else 28
    case 4 => 30
    case 6 => 30
    case 9 => 30
    case 11 => 30
    case _ => 31
  }

  function Tomorrow(d: Date): Date {
    if d.day < Days(d.year, d.month) then d.(day := d.day + 1)
    else if d.month < 12 then Date(d.year, d.month + 1, 1)
    else Date(d.year + 1, 1, 1)
  }

  function Yesterday(d: Date): Date {
    if d.day > 1 then d.(day := d.day - 1)
    else if d.month > 1 then Date(d.year, d.month - 1, Days(d.year, d.month - 1))
    else Date(d.year - 1, 12, 31)
  }

  /** The date `n` days after 1 January 1970, before it when `n` is negative. */
  function DateAfter(n: int): Date
    decreases if n < 0 then -n else n
  {
    if n == 0 then Date(1970, 1, 1) else if n > 0 then Tomorrow(DateAfter(n - 1)) else Yesterday(DateAfter(n + 1))
  }

  /** The weekday of that date; Sunday is 0, and the count starts on a Thursday. */
  function WeekdayAfter(n: int): int
    decreases if n < 0 then -n else n
  {
    if n == 0 then 4 else if n > 0 then (WeekdayAfter(n - 1) + 1) % 7 else (WeekdayAfter(n + 1) + 6) % 7
  }

  function DateOf(t: Moment): Date {
    Date(t.month / 12, t.month % 12 + 1, t.day)
  }

  lemma {:induction false} EpochIsDayZero()
    ensures FirstDay(12 * 1970) == 0
  {
  }

  lemma {:induction false} LeapIs(year: int)
    ensures Leap(year) <==> year % 400 == 0 || (year % 4 == 0 && year % 100 != 0)
  {
    DivStep400(year);
    DivStep100(year);
  }

  lemma {:induction false} MonthsAreCivil(month: int)
    ensures MonthLength(month) == Days(month / 12, month % 12 + 1)
  {
    hide Leap;
    LeapIs(month / 12);
  }

  function DayBefore(t: Moment): Moment {
    if t.day > 1 then t.(day := t.day - 1) else Moment(t.month - 1, MonthLength(t.month - 1), t.ms)
  }

  function DayBehind(t: Moment): Moment {
    if t.day < MonthLength(t.month) then t.(day := t.day + 1) else Moment(t.month + 1, 1, t.ms)
  }

  lemma {:induction false} DayBeforeIs(t: Moment)
    requires 1 <= t.day <= MonthLength(t.month)
    ensures var p := DayBefore(t);
            && 1 <= p.day <= MonthLength(p.month) && p.ms == t.ms && DayOf(p) == DayOf(t) - 1
            && Tomorrow(DateOf(p)) == DateOf(t)
  {
    hide FirstDay, MonthLength, Days;
    FirstDayStep(t.month - 1);
    MonthsAreCivil(t.month);
    MonthsAreCivil(t.month - 1);
    MonthBeforeIs(t.month);
  }

  lemma {:induction false} MonthBeforeIs(month: int)
    ensures (month - 1) % 12 == 11 ==> month % 12 == 0 && month / 12 == (month - 1) / 12 + 1
    ensures (month - 1) % 12 != 11 ==> month % 12 == (month - 1) % 12 + 1 && month / 12 == (month - 1) / 12
  {
  }

  lemma {:induction false} DayBehindIs(t: Moment)
    requires 1 <= t.day <= MonthLength(t.month)
    ensures var q := DayBehind(t);
            && 1 <= q.day <= MonthLength(q.month) && q.ms == t.ms && DayOf(q) == DayOf(t) + 1
            && Yesterday(DateOf(q)) == DateOf(t)
  {
    hide FirstDay, MonthLength, Days;
    FirstDayStep(t.month);
    MonthsAreCivil(t.month);
    MonthBeforeIs(t.month + 1);
    assert Days(t.month / 12, 12) == 31 by {
      DecemberHas31(t.month / 12);
    }
  }

  lemma {:induction false} DecemberHas31(year: int)
    ensures Days(year, 12) == 31
  {
  }

  lemma {:induction false} EpochIsUnique(t: Moment)
    requires 1 <= t.day <= MonthLength(t.month) && DayOf(t) == 0
    ensures t.month == 12 * 1970 && t.day == 1
  {
    hide FirstDay, MonthLength;
    EpochIsDayZero();
    if t.month < 12 * 1970 {
      FirstDayGrows(t.month, 12 * 1970);
    } else if t.month > 12 * 1970 {
      FirstDayGrows(12 * 1970, t.month);
    }
  }

  /** Day numbers count the days from the epoch, and weekdays follow each other from its Thursday. */
  lemma {:induction false} DayNumberCounts(t: Moment)
    requires 1 <= t.day <= MonthLength(t.month)
    ensures DateAfter(DayOf(t)) == DateOf(t)
    decreases if DayOf(t) < 0 then -DayOf(t) else DayOf(t)
  {
    hide FirstDay, MonthLength, Days, DayOf, Tomorrow, Yesterday, DateOf, DayBefore, DayBehind;
    if DayOf(t) == 0 {
      EpochIsUnique(t);
      assert DateOf(t) == Date(1970, 1, 1) by {
        EpochDate(t);
      }
    } else if DayOf(t) > 0 {
      DayBeforeIs(t);
      DayNumberCounts(DayBefore(t));
    } else {
      DayBehindIs(t);
      DayNumberCounts(DayBehind(t));
    }
  }

  lemma {:induction false} EpochDate(t: Moment)
    requires t.month == 12 * 1970 && t.day == 1
    ensures DateOf(t) == Date(1970, 1, 1)
  {
  }

  lemma {:induction false} NextWeekday(n: int)
    ensures Weekday(n + 1) == (Weekday(n) + 1) % 7
    ensures Weekday(n - 1) == (Weekday(n) + 6) % 7
  {
  }

  lemma {:induction false} WeekdayCounts(n: int)
    ensures Weekday(n) == WeekdayAfter(n)
    decreases if n < 0 then -n else n
  {
    hide Weekday;
    if n > 0 {
      WeekdayCounts(n - 1);
      NextWeekday(n - 1);
    } else if n < 0 {
      WeekdayCounts(n + 1);
      NextWeekday(n + 1);
    } else {
      FirstWeekday();
    }
  }

  /** The epoch was a Thursday. */
  lemma {:induction false} FirstWeekday()
    ensures Weekday(0) == 4 == WeekdayAfter(0)
  {
  }

  /** Every day has a date. */
  lemma {:induction false} MomentOn(n: int, ms: int) returns (t: Moment)
    ensures 1 <= t.day <= MonthLength(t.month) && t.ms == ms && DayOf(t) == n
    decreases if n < 0 then -n else n
  {
    hide FirstDay, MonthLength;
    if n == 0 {
      EpochIsDayZero();
      t := Moment(12 * 1970, 1, ms);
    } else if n > 0 {
      var before := MomentOn(n - 1, ms);
      DayBehindIs(before);
      t := DayBehind(before);
    } else {
      var behind := MomentOn(n + 1, ms);
      DayBeforeIs(behind);
      t := DayBefore(behind);
    }
  }

  // ---------------------------------------------------------------------------------
  // Occurrences by date
  // ---------------------------------------------------------------------------------

  /** Calendar order. */
  predicate Later(a: Moment, b: Moment) {
    a.month > b.month || (a.month == b.month && (a.day > b.day || (a.day == b.day && a.ms > b.ms)))
  }

  lemma {:induction false} LaterIff(a: Moment, b: Moment)
    requires Real(a) && Real(b)
    ensures Later(a, b) <==> Instant(a) > Instant(b)
    ensures Instant(a) == Instant(b) ==> a == b
  {
    hide FirstDay, MonthLength;
    if a.month < b.month {
      FirstDayGrows(a.month, b.month);
    } else if a.month > b.month {
      FirstDayGrows(b.month, a.month);
    }
  }

  /** `monday` starts the week of day `n`. */
  ghost predicate StartsWeekOf(monday: int, n: int) {
    monday <= n < monday + 7 && WeekdayAfter(monday) == 1
  }

  /** The weeks of two days are an even number of weeks apart. */
  ghost predicate EvenWeeks(a: int, b: int) {
    exists m, n :: StartsWeekOf(m, a) && StartsWeekOf(n, b) && (n - m) % 14 == 0
  }

  /** The instant the parity of a biweekly task counts from. */
  function AnchorStamp(t: Task, now: Moment): int {
    if t.createdAt != 0 then t.createdAt else if t.lastRunAt != 0 then t.lastRunAt else Instant(now)
  }

  /** The rule of the task names the moment: the right time on a listed weekday (in an even week), on
      the day of the month, or on the day of the year; a day the month does not have is its last one. */
  ghost predicate Names(t: Task, now: Moment, m: Moment) {
    Real(m) &&
    match t.rule
    case Daily(slot) => m.ms == slot
    case Weekly(days, slot) => m.ms == slot && OnWeekday(days, DateOf(m))
    case Biweekly(days, slot) =>
      m.ms == slot && OnWeekday(days, DateOf(m)) && InEvenWeek(AnchorStamp(t, now), DateOf(m))
    case Monthly(day, slot) => m.ms == slot && OnDayOfMonth(day, DateOf(m))
    case Yearly(of, day, slot) => m.ms == slot && DateOf(m).month == of + 1 && OnDayOfMonth(day, DateOf(m))
    case NoRule => false
  }

  ghost predicate OnWeekday(days: seq<int>, d: Date) {
    exists n :: DateAfter(n) == d && WeekdayAfter(n) in days
  }

  /** The week of the date is an even number of weeks from the week of the stamp. */
  ghost predicate InEvenWeek(stamp: int, d: Date) {
    exists n, a :: DateAfter(n) == d && a * DAY <= stamp < (a + 1) * DAY && EvenWeeks(a, n)
  }

  predicate OnDayOfMonth(day: int, d: Date) {
    d.day == if day < 1 then 1 else if day > Days(d.year, d.month) then Days(d.year, d.month) else day
  }

  lemma {:induction false} DateIsUnique(n: int, m: Moment)
    requires Real(m)
    ensures DateAfter(n) == DateOf(m) <==> n == DayOf(m)
  {
    hide FirstDay, MonthLength, DateAfter, DayOf;
    DayNumberCounts(m);
    if DateAfter(n) == DateOf(m) {
      var t := MomentOn(n, m.ms);
      DayNumberCounts(t);
      SameDate(t, m);
    }
  }

  lemma {:induction false} SameDate(a: Moment, b: Moment)
    requires DateOf(a) == DateOf(b) && a.ms == b.ms
    ensures a == b
  {
  }

  lemma {:induction false} WeekStarts(monday: int, n: int)
    ensures StartsWeekOf(monday, n) <==> monday == WeekStart(n)
  {
    WeekdayCounts(monday);
  }

  lemma {:induction false} EvenWeeksIff(a: int, b: int)
    ensures EvenWeeks(a, b) <==> WeeksBetween(WeekStart(a), WeekStart(b)) % 2 == 0
  {
    hide StartsWeekOf, WeekStart, WeeksBetween, WeekIndex;
    WeekParity(a, b);
    WeekStartIs(a);
    WeekStartIs(b);
    WeekStarts(WeekStart(a), a);
    WeekStarts(WeekStart(b), b);
    FourteenApart(WeekIndex(a), WeekIndex(b));
    forall m, n | StartsWeekOf(m, a) && StartsWeekOf(n, b) ensures m == WeekStart(a) && n == WeekStart(b) {
      WeekStarts(m, a);
      WeekStarts(n, b);
    }
  }

  lemma {:induction false} FourteenApart(a: int, b: int)
    ensures (7 * b - 3 - (7 * a - 3)) % 14 == 0 <==> (a - b) % 2 == 0
  {
    if (a - b) % 2 == 0 {
      assert 7 * b - 3 - (7 * a - 3) == 14 * -((a - b) / 2);
    } else {
      assert 7 * b - 3 - (7 * a - 3) == 14 * (-((a - b) / 2) - 1) + 7;
    }
  }

  /** A day of a weekly rule, in both readings. */
  lemma {:induction false} ListedIs(t: Task, now: Moment, m: Moment, days: seq<int>)
    requires Real(m)
    ensures Listed(days, None, DayOf(m)) <==> OnWeekday(days, DateOf(m))
    ensures Listed(days, Some(AnchorDay(t, now)), DayOf(m)) <==>
            OnWeekday(days, DateOf(m)) && InEvenWeek(AnchorStamp(t, now), DateOf(m))
  {
    hide DateAfter, DayOf, Weekday, WeekStart, WeeksBetween, WeekdayAfter, EvenWeeks, Real, DateOf;
    var day := DayOf(m);
    DateIsUnique(day, m);
    WeekdayCounts(day);
    EvenWeeksIff(AnchorDay(t, now), day);
    AnchorIs(t, now, AnchorDay(t, now));
    forall n | DateAfter(n) == DateOf(m) ensures n == day {
      DateIsUnique(n, m);
    }
    forall a | a * DAY <= AnchorStamp(t, now) < (a + 1) * DAY ensures a == AnchorDay(t, now) {
      AnchorIs(t, now, a);
    }
  }

  lemma {:induction false} AnchorIs(t: Task, now: Moment, a: int)
    ensures a * DAY <= AnchorStamp(t, now) < (a + 1) * DAY <==> a == AnchorDay(t, now)
  {
    hide Instant;
  }

  lemma {:induction false} DailyMoment(m: Moment, slot: int)
    requires Real(m) && 0 <= slot < DAY
    ensures forall day :: Instant(m) == DailyAt(day, slot) <==> m.ms == slot && day == DayOf(m)
  {
    hide DayOf;
  }

  lemma {:induction false} ListedMoment(m: Moment, days: seq<int>, anchor: Option<int>, slot: int)
    requires Real(m) && 0 <= slot < DAY
    ensures IsListed(days, anchor, slot, Instant(m)) <==> m.ms == slot && Listed(days, anchor, DayOf(m))
  {
    hide DayOf, Instant, Listed, DailyAt;
    DailyMoment(m, slot);
    if m.ms == slot && Listed(days, anchor, DayOf(m)) {
      assert Instant(m) == DailyAt(DayOf(m), slot);
    }
  }

  /** An instant occurs under the rule of the task exactly when its date and time are named by it. */
  lemma {:induction false} OccursIff(t: Task, now: Moment, m: Moment)
    requires Real(m) && ValidRule(t.rule)
    ensures Occurs(t, now, Instant(m)) <==> Names(t, now, m)
  {
    hide DayOf, DateAfter, WeekdayAfter, EvenWeeks, Listed, IsListed, Instant, DailyAt, AnchorDay, DateOf,
      OnDayOfMonth, AnchorStamp, OnWeekday, InEvenWeek;
    match t.rule
    case Daily(slot) =>
      DailyMoment(m, slot);
      assert Instant(m) == DailyAt(DayOf(m), slot) <==> m.ms == slot;
    case Weekly(days, slot) =>
      ListedMoment(m, days, None, slot);
      ListedIs(t, now, m, days);
    case Biweekly(days, slot) =>
      ListedMoment(m, days, Some(AnchorDay(t, now)), slot);
      ListedIs(t, now, m, days);
    case Monthly(day, slot) => MonthlyMoment(m, day, slot);
    case Yearly(of, day, slot) => YearlyMoment(m, of, day, slot);
    case NoRule =>
  }

  lemma {:induction false} MonthlyMomentAt(m: Moment, day: int, slot: int, month: int)
    requires Real(m) && 0 <= slot < DAY
    ensures Instant(m) == MonthlyAt(month, day, slot) <==>
            month == m.month && m.ms == slot && OnDayOfMonth(day, DateOf(m))
  {
    hide FirstDay, MonthLength, Instant, Days;
    MonthsAreCivil(month);
    var d := if day < 1 then 1 else if day > MonthLength(month) then MonthLength(month) else day;
    var o := Moment(month, d, slot);
    assert MonthlyAt(month, day, slot) == Instant(o) by {
      DayInstant(o);
    }
    LaterIff(m, o);
  }

  lemma {:induction false} DayInstant(o: Moment)
    ensures Instant(o) == DailyAt(FirstDay(o.month) + o.day - 1, o.ms)
  {
  }

  lemma {:induction false} MonthlyMoment(m: Moment, day: int, slot: int)
    requires Real(m) && 0 <= slot < DAY
    ensures IsMonthly(day, slot, Instant(m)) <==> m.ms == slot && OnDayOfMonth(day, DateOf(m))
  {
    hide MonthlyAt, Instant, OnDayOfMonth;
    MonthlyMomentAt(m, day, slot, m.month);
    forall month | Instant(m) == MonthlyAt(month, day, slot) ensures m.ms == slot && OnDayOfMonth(day, DateOf(m)) {
      MonthlyMomentAt(m, day, slot, month);
    }
  }

  lemma {:induction false} YearlyMoment(m: Moment, of: int, day: int, slot: int)
    requires Real(m) && 0 <= slot < DAY && 0 <= of < 12
    ensures IsYearly(of, day, slot, Instant(m)) <==>
            m.ms == slot && DateOf(m).month == of + 1 && OnDayOfMonth(day, DateOf(m))
  {
    hide MonthlyAt, Instant, OnDayOfMonth;
    MonthlyMomentAt(m, day, slot, m.month);
    assert m.month == 12 * (m.month / 12) + m.month % 12;
    forall year | Instant(m) == MonthlyAt(12 * year + of, day, slot)
      ensures m.ms == slot && DateOf(m).month == of + 1 && OnDayOfMonth(day, DateOf(m))
    {
      MonthlyMomentAt(m, day, slot, 12 * year + of);
      assert (12 * year + of) % 12 == of;
    }
  }

  /** Every instant is a moment of some date. */
  lemma {:induction false} MomentAt(u: int) returns (m: Moment)
    ensures Real(m) && Instant(m) == u
  {
    m := MomentOn(u / DAY, u % DAY);
  }

  // ---------------------------------------------------------------------------------
  // When a task is due
  // ---------------------------------------------------------------------------------

  /** `m` is the latest moment the rule names that is not after `now`. */
  ghost predicate LatestNamed(t: Task, now: Moment, m: Moment) {
    && Names(t, now, m) && !Later(m, now)
    && forall o :: Names(t, now, o) && !Later(o, now) ==> !Later(o, m)
  }

  lemma {:induction false} LatestIff(t: Task, now: Moment, m: Moment)
    requires Real(now) && Real(m) && ValidRule(t.rule)
    ensures LatestOccurrence(t, now, Instant(m)) <==> LatestNamed(t, now, m)
  {
    hide Occurs, Names, Instant, Later, Real, ValidRule;
    OccursIff(t, now, m);
    LaterIff(m, now);
    if LatestNamed(t, now, m) {
      forall u | Occurs(t, now, u) && u <= Instant(now) ensures u <= Instant(m) {
        var o := MomentAt(u);
        OccursIff(t, now, o);
        LaterIff(o, now);
        LaterIff(o, m);
      }
    }
    if LatestOccurrence(t, now, Instant(m)) {
      forall o | Names(t, now, o) && !Later(o, now) ensures !Later(o, m) {
        assert Real(o) by {
          NamesReal(t, now, o);
        }
        OccursIff(t, now, o);
        LaterIff(o, now);
        LaterIff(o, m);
      }
    }
  }

  lemma {:induction false} NamesReal(t: Task, now: Moment, m: Moment)
    requires Names(t, now, m)
    ensures Real(m)
  {
  }

  /** The search for the occurrence fails: the only day of the past window that a weekly rule lists is
      today, and its time is ahead; or the time of this month is ahead and the month before does not
      have today's day. */
  ghost predicate SearchFails(t: Task, now: Moment) {
    match t.rule
    case Weekly(_, _) => FailsBy(t, now, 7)
    case Biweekly(_, _) => FailsBy(t, now, 14)
    case Monthly(_, _) =>
      && now.day > Days((now.month - 1) / 12, (now.month - 1) % 12 + 1)
      && exists m :: Names(t, now, m) && m.month == now.month && Later(m, now)
    case _ => false
  }

  /** No named moment among the last `window` days up to now. */
  ghost predicate FailsBy(t: Task, now: Moment, window: int) {
    forall m :: Names(t, now, m) && !Later(m, now) ==> Instant(m) / DAY <= Instant(now) / DAY - window
  }

  lemma {:induction false} WeeklySearch(t: Task, now: Moment, days: seq<int>, anchor: Option<int>, slot: int)
    requires Real(now) && ValidRule(t.rule) && 0 <= slot < DAY
    requires forall u :: Occurs(t, now, u) <==> IsListed(days, anchor, slot, u)
    ensures var window := if anchor.None? then 7 else 14;
            FirstHit(days, anchor, slot, now, 0, window).None? <==> FailsBy(t, now, window)
  {
    hide Occurs, Names, Instant, Later, Real, Listed, DailyAt, DayOf, FirstHit, Hit;
    var window := if anchor.None? then 7 else 14;
    FirstHitIs(days, anchor, slot, now, 0, window);
    NowDay(now);
    if FirstHit(days, anchor, slot, now, 0, window).Some? {
      var o :| 0 <= o < window && Hit(days, anchor, slot, now, o);
      HitNamed(t, now, days, anchor, slot, o);
    } else {
      forall m | Names(t, now, m) && !Later(m, now) ensures Instant(m) / DAY <= Instant(now) / DAY - window {
        NamedHits(t, now, days, anchor, slot, m);
      }
    }
  }

  lemma {:induction false} NowDay(m: Moment)
    requires Real(m)
    ensures Instant(m) / DAY == DayOf(m)
  {
    hide DayOf;
  }

  lemma {:induction false} HitNamed(t: Task, now: Moment, days: seq<int>, anchor: Option<int>, slot: int, o: int)
    requires Real(now) && ValidRule(t.rule) && 0 <= slot < DAY && o >= 0 && Hit(days, anchor, slot, now, o)
    requires forall u :: Occurs(t, now, u) <==> IsListed(days, anchor, slot, u)
    ensures exists m :: Names(t, now, m) && !Later(m, now) && Instant(m) / DAY == Instant(now) / DAY - o
  {
    hide Occurs, Names, Later, Listed, DayOf;
    var m := MomentOn(DayOf(now) - o, slot);
    assert Instant(m) == DailyAt(DayOf(now) - o, slot);
    assert IsListed(days, anchor, slot, Instant(m));
    OccursIff(t, now, m);
    LaterIff(m, now);
    NowDay(m);
    NowDay(now);
  }

  lemma {:induction false} NamedHits(t: Task, now: Moment, days: seq<int>, anchor: Option<int>, slot: int, m: Moment)
    requires Real(now) && ValidRule(t.rule) && 0 <= slot < DAY && Names(t, now, m) && !Later(m, now)
    requires forall u :: Occurs(t, now, u) <==> IsListed(days, anchor, slot, u)
    ensures Instant(m) / DAY == DayOf(m) <= DayOf(now) && Hit(days, anchor, slot, now, DayOf(now) - DayOf(m))
  {
    hide Occurs, Names, Later, Listed, DayOf, Instant, DailyAt;
    NamesReal(t, now, m);
    OccursIff(t, now, m);
    ListedMoment(m, days, anchor, slot);
    DailyMoment(m, slot);
    LaterIff(m, now);
    NowDay(m);
    NowDay(now);
    DayOrder(m, now);
  }

  lemma {:induction false} DayOrder(m: Moment, now: Moment)
    requires Real(m) && Real(now) && Instant(m) <= Instant(now)
    ensures DayOf(m) <= DayOf(now)
  {
    hide DayOf;
  }

  lemma {:induction false} MonthlySearch(t: Task, now: Moment, day: int, slot: int)
    requires Real(now) && ValidRule(t.rule) && t.rule == Monthly(day, slot)
    ensures SearchFails(t, now) <==>
            MonthlyAt(now.month, day, slot) > Instant(now) && now.day > MonthLength(now.month - 1)
  {
    hide MonthlyAt, Instant, OnDayOfMonth, FirstDay, MonthLength, Days, Later;
    MonthsAreCivil(now.month - 1);
    var o := MomentAt(MonthlyAt(now.month, day, slot));
    MonthlyMomentAt(o, day, slot, now.month);
    LaterIff(o, now);
    forall m | Names(t, now, m) && m.month == now.month ensures m == o {
      MonthlyMomentAt(m, day, slot, now.month);
      LaterIff(m, o);
    }
  }

  /** The search finds the latest named moment or fails as described. */
  lemma {:induction false} SearchFinds(t: Task, now: Moment)
    requires Real(now) && ValidRule(t.rule) && !t.rule.NoRule?
    ensures !SearchFails(t, now) ==> Scheduled(t, now).Some? && LatestOccurrence(t, now, Scheduled(t, now).value)
    ensures SearchFails(t, now) ==>
              if t.rule.Monthly? then Scheduled(t, now).Some? && Scheduled(t, now).value > Instant(now)
              else Scheduled(t, now).None?
  {
    hide Instant, PreviousDaily, PreviousMonthly, PreviousYearly, FirstHit, IsDaily, IsMonthly, IsYearly, IsListed,
      Real, FailsBy, Days, LatestOccurrence, Names, Later;
    match t.rule
    case Daily(slot) =>
      DailyIsLatest(slot, now);
      LatestOf(t, now, u => IsDaily(slot, u));
    case Weekly(days, slot) =>
      WeeklySearch(t, now, days, None, slot);
      WeeklyIsLatestIff(days, None, slot, now);
      if Scheduled(t, now).Some? {
        LatestOf(t, now, u => IsListed(days, None, slot, u));
      }
    case Biweekly(days, slot) =>
      WeeklySearch(t, now, days, Some(AnchorDay(t, now)), slot);
      WeeklyIsLatestIff(days, Some(AnchorDay(t, now)), slot, now);
      if Scheduled(t, now).Some? {
        LatestOf(t, now, u => IsListed(days, Some(AnchorDay(t, now)), slot, u));
      }
    case Monthly(day, slot) =>
      MonthlySearch(t, now, day, slot);
      MonthlyIsLatestIff(day, slot, now);
      if !SearchFails(t, now) {
        LatestOf(t, now, u => IsMonthly(day, slot, u));
      }
    case Yearly(of, day, slot) =>
      YearlyIsLatest(of, day, slot, now);
      LatestOf(t, now, u => IsYearly(of, day, slot, u));
    case NoRule =>
  }

  /** The latest named moment `m` makes the task due: it is not before the creation of the task, and
      nothing has run since. */
  ghost predicate Calls(t: Task, now: Moment, m: Moment) {
    LatestNamed(t, now, m) && (t.createdAt == 0 || t.createdAt <= Instant(m)) &&
    (t.lastRunAt == 0 || t.lastRunAt < Instant(m))
  }

  /** A task with a calendar rule is due exactly when the latest moment its rule names calls for it;
      when the search for that moment fails, a weekly or biweekly task is due by its plain interval
      and a monthly one not at all. */
  lemma {:induction false} DueByDateIff(t: Task, now: Moment)
    requires Real(now) && ValidRule(t.rule) && !t.rule.NoRule?
    ensures Due(t, now) <==>
            if !SearchFails(t, now) then exists m :: Calls(t, now, m)
            else !t.rule.Monthly? && IntervalDue(t, now)
  {
    hide Scheduled, Instant, Real, SearchFails, IntervalDue, LatestNamed, ValidRule, LatestOccurrence;
    SearchFinds(t, now);
    if !SearchFails(t, now) {
      var at := Scheduled(t, now).value;
      var m := MomentAt(at);
      LatestIff(t, now, m);
      LatestNotAhead(t, now, at);
      assert LatestNamed(t, now, m);
      assert Due(t, now) <==> Calls(t, now, m);
      forall o | Calls(t, now, o) ensures o == m {
        LatestIsUnique(t, now, o, m);
      }
    }
  }

  lemma {:induction false} LatestNotAhead(t: Task, now: Moment, at: int)
    requires LatestOccurrence(t, now, at)
    ensures at <= Instant(now)
  {
  }

  lemma {:induction false} LatestIsUnique(t: Task, now: Moment, a: Moment, b: Moment)
    requires LatestNamed(t, now, a) && LatestNamed(t, now, b)
    ensures a == b
  {
    hide Names;
    assert !Later(a, b) && !Later(b, a);
  }

  const DAY_MINUTES := 1440

  /** Going forward from the start of the window (midnight when there is none) the minute comes before
      the end (midnight when there is none).  Equal ends leave the whole day, except that a window
      with no start that ends at midnight is empty. */
  predicate InWindow(t: Task, minutes: int) {
    var start := if t.from.Some? then t.from.value else 0;
    var width := ((if t.until.Some? then t.until.value else DAY_MINUTES) - start) % DAY_MINUTES;
    !(t.from.None? && t.until == Some(0)) && (width == 0 || (minutes - start) % DAY_MINUTES < width)
  }

  predicate ValidMinute(m: Option<int>) {
    m.Some? ==> 0 <= m.value < DAY_MINUTES
  }

  lemma {:induction false} WindowIff(t: Task, minutes: int)
    requires ValidMinute(t.from) && ValidMinute(t.until) && 0 <= minutes < DAY_MINUTES
    ensures WithinWindow(t, minutes) <==> InWindow(t, minutes)
  {
    var start := if t.from.Some? then t.from.value else 0;
    var end := if t.until.Some? then t.until.value else DAY_MINUTES;
    Around(minutes - start);
    Around(end - start);
  }

  lemma {:induction false} Around(d: int)
    requires -DAY_MINUTES < d <= DAY_MINUTES
    ensures d % DAY_MINUTES == if d < 0 then d + DAY_MINUTES else if d == DAY_MINUTES then 0 else d
  {
  }

  /** A task without a calendar rule, or whose search failed, is due exactly when a positive interval
      has passed since its last run, or since its creation when it never ran, or it has neither, and
      the time of day lies in its window. */
  lemma {:induction false} IntervalDueIff(t: Task, now: Moment)
    requires Real(now) && ValidMinute(t.from) && ValidMinute(t.until)
    ensures IntervalDue(t, now) <==>
            && t.interval > 0 && InWindow(t, now.ms / 60000)
            && (t.lastRunAt != 0 ==> t.lastRunAt + t.interval <= Instant(now))
            && (t.lastRunAt == 0 && t.createdAt != 0 ==> t.createdAt + t.interval <= Instant(now))
    ensures t.rule.NoRule? ==> (Due(t, now) <==> IntervalDue(t, now))
  {
    hide Instant, WithinWindow, InWindow;
    WindowIff(t, now.ms / 60000);
  }

  // ---------------------------------------------------------------------------------
  // Runs and their stamps
  // ---------------------------------------------------------------------------------

  /** The update a run returns for a task of the config: stamped when it ends, and created then when it
      was submitted without a creation time. */
  function Completion(c: Config.Task, tick: Tick): Config.Task {
    c.(lastRunAt := tick.stamp,
    createdAt := if c.createdAt == 0 && tick.ending == Submitted then tick.stamp else c.createdAt)
  }

  /** The scheduler sees the stamps that merging the completion into the config leaves, even when other
      completions were merged since the run began. */
  lemma {:induction false} RunsAreMerged(t: Task, tick: Tick, read: Config.Task, now: Config.Task)
    requires read.createdAt == 0 || read.createdAt == now.createdAt
    requires now.lastRunAt == t.lastRunAt && now.createdAt == t.createdAt
    ensures Config.MergeTask(now, Completion(read, tick)).lastRunAt == MergeRun(t, tick).lastRunAt
    ensures Config.MergeTask(now, Completion(read, tick)).createdAt == MergeRun(t, tick).createdAt
  {
  }

  /** Tick `k` found the task due and ran it to an end, submitted or failed, and tick `j` reads it. */
  ghost predicate RanAndShown(t: Task, ticks: seq<Tick>, k: nat, j: nat)
    requires k < j <= |ticks|
  {
    && Due(TaskAt(t, ticks, k), ticks[k].now) && (ticks[k].ending == Submitted || ticks[k].ending == Failed)
    && ticks[k].shows.Some? && ticks[k].shows.value <= j
  }

  /** The last run a tick reads is the newest of the task's own stamp and those of the runs that show by
      then; a run that was put off leaves no stamp. */
  lemma {:induction false} StampsComeFromRuns(t: Task, ticks: seq<Tick>, j: nat)
    requires j <= |ticks|
    ensures t.lastRunAt <= TaskAt(t, ticks, j).lastRunAt
    ensures forall k: nat :: k < j && RanAndShown(t, ticks, k, j) ==> ticks[k].stamp <= TaskAt(t, ticks, j).lastRunAt
    ensures TaskAt(t, ticks, j).lastRunAt == t.lastRunAt ||
              exists k: nat :: k < j && RanAndShown(t, ticks, k, j) && ticks[k].stamp == TaskAt(t, ticks, j).lastRunAt
  {
    hide MergedFrom;
    var last := TaskAt(t, ticks, j).lastRunAt;
    MergedStamps(t, ticks, j, j, last);
    MergedStamps(t, ticks, j, j, t.lastRunAt);
    MergedStamps(t, ticks, j, j, last + 1);
    forall k: nat | k < j ensures Known(t, ticks, k, j) <==> RanAndShown(t, ticks, k, j) {
      KnownIff(t, ticks, k, j);
    }
    forall k: nat | k < j && RanAndShown(t, ticks, k, j) ensures ticks[k].stamp <= last {
      MergedStamps(t, ticks, j, j, ticks[k].stamp);
    }
  }

  lemma {:induction false} KnownIff(t: Task, ticks: seq<Tick>, k: nat, j: nat)
    requires k < j <= |ticks|
    ensures Known(t, ticks, k, j) <==> RanAndShown(t, ticks, k, j)
  {
  }
}
