/** Calendar arithmetic of the heartbeat engine, on a civil calendar with a fixed offset.
    Instants are milliseconds, days are counted from 1970-01-01, months from year 0. */
module HeartbeatSchedule {
  import opened Prelude

  const DAY := 86400000

  // ---------------------------------------------------------------------------------
  // Civil calendar
  // ---------------------------------------------------------------------------------

  predicate Leap(year: int) {
    year % 4 == 0 && (year % 100 != 0 || year % 400 == 0)
  }

  /** Length of month `m`, counted from January of year 0. */
  function MonthLength(m: int): (n: int)
    ensures 28 <= n <= 31
  {
    var k := m % 12;
    if k == 1 then (if Leap(m / 12) then 29 else 28)
    else if k == 3 || k == 5 || k == 8 || k == 10 then 30
    else 31
  }

  const CUMULATIVE := [0, 31, 59, 90, 120, 151, 181, 212, 243, 273, 304, 334]

  /** Day number of the first day of month `m`. */
  function FirstDay(m: int): int {
    var year, k := m / 12, m % 12;
    365 * (year - 1) + (year - 1) / 4 - (year - 1) / 100 + (year - 1) / 400 +
    CUMULATIVE[k] + (if k >= 2 && Leap(year) then 1 else 0) - 719162
  }

  /** Months follow each other without gap. */
  lemma {:induction false} FirstDayStep(m: int)
    ensures FirstDay(m + 1) == FirstDay(m) + MonthLength(m)
  {
    var year, k := m / 12, m % 12;
    if k == 11 {
      assert (m + 1) / 12 == year + 1 && (m + 1) % 12 == 0;
      LeapYearCount(year);
    } else {
      assert (m + 1) / 12 == year && (m + 1) % 12 == k + 1;
    }
  }

  lemma {:induction false} LeapYearCount(year: int)
    ensures year / 4 - year / 100 + year / 400 - ((year - 1) / 4 - (year - 1) / 100 + (year - 1) / 400) ==
              if Leap(year) then 1 else 0
  {
    DivStep4(year);
    DivStep100(year);
    DivStep400(year);
  }

  lemma {:induction false} DivStep4(year: int)
    ensures year / 4 - (year - 1) / 4 == if year % 4 == 0 then 1 else 0
  {
    var q, r := year / 4, year % 4;
    assert year - 1 == if r == 0 then 4 * (q - 1) + 3 else 4 * q + (r - 1);
  }

  lemma {:induction false} DivStep100(year: int)
    ensures year / 100 - (year - 1) / 100 == if year % 100 == 0 then 1 else 0
    ensures year % 100 == 0 ==> year % 4 == 0
  {
    var q, r := year / 100, year % 100;
    assert year - 1 == if r == 0 then 100 * (q - 1) + 99 else 100 * q + (r - 1);
    assert r == 0 ==> year == 4 * (25 * q);
  }

  lemma {:induction false} DivStep400(year: int)
    ensures year / 400 - (year - 1) / 400 == if year % 400 == 0 then 1 else 0
    ensures year % 400 == 0 ==> year % 100 == 0
  {
    var q, r := year / 400, year % 400;
    assert year - 1 == if r == 0 then 400 * (q - 1) + 399 else 400 * q + (r - 1);
    assert r == 0 ==> year == 100 * (4 * q);
  }

  lemma {:induction false} FirstDayGrows(a: int, b: int)
    requires a < b
    ensures FirstDay(a) + MonthLength(a) <= FirstDay(b)
    decreases b - a
  {
    FirstDayStep(b - 1);
    if a < b - 1 {
      FirstDayGrows(a, b - 1);
    } else {
      assert b == a + 1;
    }
  }

  /** A moment of the day `day` of month `month`. */
  datatype Moment = Moment(month: int, day: int, ms: int)

  predicate Real(t: Moment) {
    1 <= t.day <= MonthLength(t.month) && 0 <= t.ms < DAY
  }

  function DayOf(t: Moment): int {
    FirstDay(t.month) + t.day - 1
  }

  function Instant(t: Moment): int {
    DayOf(t) * DAY + t.ms
  }

  /** `t` is the latest instant at or before `now` among the occurrences. */
  ghost predicate IsLatest(occurs: int -> bool, now: int, t: int) {
    occurs(t) && t <= now && forall u :: occurs(u) && u <= now ==> u <= t
  }

  // ---------------------------------------------------------------------------------
  // Daily
  // ---------------------------------------------------------------------------------

  function DailyAt(day: int, slot: int): int {
    day * DAY + slot
  }

  function PreviousDaily(slot: int, now: Moment): int {
    var candidate := DailyAt(DayOf(now), slot);
    if candidate > Instant(now) then candidate - DAY else candidate
  }

  ghost predicate IsDaily(slot: int, t: int) {
    exists day :: t == DailyAt(day, slot)
  }

  lemma {:induction false} DailyIsLatest(slot: int, now: Moment)
    requires Real(now) && 0 <= slot < DAY
    ensures IsLatest(t => IsDaily(slot, t), Instant(now), PreviousDaily(slot, now))
  {
    var t := PreviousDaily(slot, now);
    assert t == DailyAt(DayOf(now), slot) || t == DailyAt(DayOf(now) - 1, slot);
    forall u | IsDaily(slot, u) && u <= Instant(now) ensures u <= t {
      var day :| u == DailyAt(day, slot);
      assert day <= DayOf(now);
    }
  }

  // ---------------------------------------------------------------------------------
  // Weekly and biweekly
  // ---------------------------------------------------------------------------------

  /** Sunday is 0; day 0 was a Thursday. */
  function Weekday(day: int): int {
    (day + 4) % 7
  }

  /** weekStart: the Monday at or before the day. */
  function WeekStart(day: int): int {
    day - (Weekday(day) + 6) % 7
  }

  /** weeksBetween. */
  function WeeksBetween(a: int, b: int): int {
    (if b < a then a - b else b - a) / 7
  }

  /** A day the rule lists: its weekday is listed and, with an anchor, its week is an even
      number of weeks away from the anchor's. */
  predicate Listed(days: seq<int>, anchor: Option<int>, day: int) {
    Weekday(day) in days &&
    (anchor.None? || WeeksBetween(WeekStart(anchor.value), WeekStart(day)) % 2 == 0)
  }

  /** The listed slot of the day `offset` days ago, when it is not ahead of `now`. */
  predicate Hit(days: seq<int>, anchor: Option<int>, slot: int, now: Moment, offset: int) {
    Listed(days, anchor, DayOf(now) - offset) && DailyAt(DayOf(now) - offset, slot) <= Instant(now)
  }

  /** Smallest offset in [from, window) that hits. */
  function FirstHit(days: seq<int>, anchor: Option<int>, slot: int, now: Moment, from: nat, window: nat): Option<int>
    requires from <= window
    decreases window - from
  {
    if from == window then None
    else if Hit(days, anchor, slot, now, from) then Some(DailyAt(DayOf(now) - from, slot))
    else FirstHit(days, anchor, slot, now, from + 1, window)
  }

  lemma {:induction false} FirstHitIs(days: seq<int>, anchor: Option<int>, slot: int, now: Moment, from: nat,
                                      window: nat)
    requires from <= window
    ensures match FirstHit(days, anchor, slot, now, from, window)
            case None => forall k :: from <= k < window ==> !Hit(days, anchor, slot, now, k)
            case Some(t) =>
              exists o :: from <= o < window && Hit(days, anchor, slot, now, o) && t == DailyAt(DayOf(now) - o, slot) &&
                                        forall k :: from <= k < o ==> !Hit(days, anchor, slot, now, k)
    decreases window - from
  {
    if from < window && !Hit(days, anchor, slot, now, from) {
      FirstHitIs(days, anchor, slot, now, from + 1, window);
      match FirstHit(days, anchor, slot, now, from + 1, window)
      case None =>
      case Some(t) =>
        var o :| from + 1 <= o < window && Hit(days, anchor, slot, now, o) && t == DailyAt(DayOf(now) - o, slot) &&
                 forall k :: from + 1 <= k < o ==> !Hit(days, anchor, slot, now, k);
        assert from <= o;
    }
  }

  /** previousHeartbeatWeeklyAt: scan every listed weekday of every day of the window. */
  method PreviousHeartbeatWeeklyAt(days: seq<int>, slot: int, now: Moment, window: nat, anchor: Option<int>)
    returns (best: Option<int>)
    ensures best == FirstHit(days, anchor, slot, now, 0, window)
  {
    best := None;
    ghost var first: Option<int> := None;
    for offset := 0 to window
      invariant best == first
      invariant best.Some? ==>
                  && best == FirstHit(days, anchor, slot, now, 0, window)
                  && best.value > DailyAt(DayOf(now) - offset, slot)
      invariant best.None? ==>
                  FirstHit(days, anchor, slot, now, 0, window) == FirstHit(days, anchor, slot, now, offset, window)
    {
      var day := DayOf(now) - offset;
      var candidate := DailyAt(day, slot);
      for k := 0 to |days|
        invariant best ==
                    (if first.None? && Weekday(day) in days[..k] &&
                    Hit(days, anchor, slot, now, offset) then Some(candidate) else first)
        invariant best.Some? ==> best.value >= candidate
      {
        assert days[..k + 1] == days[..k] + [days[k]];
        if Weekday(day) == days[k] && candidate <= Instant(now) &&
          (anchor.None? || WeeksBetween(WeekStart(anchor.value), WeekStart(day)) % 2 == 0) {
          if best.None? || candidate > best.value {
            best := Some(candidate);
          }
        }
      }
      assert days[..|days|] == days;
      first := best;
    }
  }

  ghost predicate IsListed(days: seq<int>, anchor: Option<int>, slot: int, t: int) {
    exists day :: t == DailyAt(day, slot) && Listed(days, anchor, day)
  }

  /** The rule repeats with the window the scan looks back over: 7 days, 14 with an anchor. */
  lemma {:induction false} ListedRepeats(days: seq<int>, anchor: Option<int>, day: int)
    ensures Listed(days, anchor, day) <==> Listed(days, anchor, day - if anchor.None? then 7 else 14)
  {
    hide Weekday, WeekStart, WeeksBetween, WeekIndex;
    WeekBack(day);
    if anchor.Some? {
      WeekParity(anchor.value, day);
      WeekParity(anchor.value, day - 14);
    }
  }

  function WeekIndex(day: int): int {
    (day + 3) / 7
  }

  lemma {:induction false} WeekBack(day: int)
    ensures Weekday(day - 7) == Weekday(day - 14) == Weekday(day)
    ensures WeekIndex(day - 14) == WeekIndex(day) - 2
  {
  }

  lemma {:induction false} WeekParity(a: int, b: int)
    ensures WeeksBetween(WeekStart(a), WeekStart(b)) % 2 == 0 <==> (WeekIndex(a) - WeekIndex(b)) % 2 == 0
  {
    hide WeekStart, WeeksBetween, WeekIndex;
    WeekStartIs(a);
    WeekStartIs(b);
    SevenApart(WeekStart(a), WeekStart(b), WeekIndex(a) - WeekIndex(b));
    EvenEitherWay(WeekIndex(a) - WeekIndex(b));
  }

  lemma {:induction false} WeekStartIs(day: int)
    ensures WeekStart(day) == 7 * WeekIndex(day) - 3
  {
  }

  lemma {:induction false} SevenApart(x: int, y: int, weeks: int)
    requires x - y == 7 * weeks
    ensures WeeksBetween(x, y) == if weeks < 0 then -weeks else weeks
  {
  }

  lemma {:induction false} EvenEitherWay(d: int)
    ensures (-d) % 2 == 0 <==> d % 2 == 0
  {
  }

  lemma {:induction false} ListedFarBack(days: seq<int>, anchor: Option<int>, day: int, today: int) returns (near: int)
    requires day <= today && Listed(days, anchor, day)
    ensures var window := if anchor.None? then 7 else 14;
            day <= near && today - window < near <= today && Listed(days, anchor, near)
    decreases today - day
  {
    hide Listed;
    var window := if anchor.None? then 7 else 14;
    if day > today - window {
      near := day;
    } else {
      ListedRepeats(days, anchor, day + window);
      near := ListedFarBack(days, anchor, day + window, today);
    }
  }

  /** No day of the window that ends today is listed. */
  ghost predicate NoneListed(days: seq<int>, anchor: Option<int>, from: int, to: int) {
    forall day :: from <= day <= to ==> !Listed(days, anchor, day)
  }

  /** The weekly and biweekly searches find the latest listed slot, or nothing.  They find
      nothing although the rule lists some day exactly when the only listed day of the past
      window is today and its time is still ahead; the latest slot is then a full window
      back, one day beyond the scan. */
  lemma {:induction false} WeeklyIsLatestIff(days: seq<int>, anchor: Option<int>, slot: int, now: Moment)
    requires Real(now) && 0 <= slot < DAY
    ensures var window := if anchor.None? then 7 else 14; var today := DayOf(now);
            match FirstHit(days, anchor, slot, now, 0, window)
            case Some(t) => IsLatest(u => IsListed(days, anchor, slot, u), Instant(now), t)
            case None =>
              if NoneListed(days, anchor, today - window + 1, today) then forall u :: !IsListed(days, anchor, slot, u)
              else
                && slot > now.ms && Listed(days, anchor, today)
                && NoneListed(days, anchor, today - window + 1, today - 1)
                && IsLatest(u => IsListed(days, anchor, slot, u), Instant(now), DailyAt(today - window, slot))
  {
    hide Listed, IsLatest, DayOf, Instant, IsListed;
    var window := if anchor.None? then 7 else 14;
    FirstHitIs(days, anchor, slot, now, 0, window);
    var today := DayOf(now);
    match FirstHit(days, anchor, slot, now, 0, window)
    case Some(t) => HitIsLatest(days, anchor, slot, now, window, t);
    case None =>
      if NoneListed(days, anchor, today - window + 1, today) {
        NothingListed(days, anchor, slot, today);
      } else {
        OnlyToday(days, anchor, slot, now, window);
      }
  }

  lemma {:induction false} NothingListed(days: seq<int>, anchor: Option<int>, slot: int, today: int)
    requires NoneListed(days, anchor, today - (if anchor.None? then 7 else 14) + 1, today)
    ensures forall u :: !IsListed(days, anchor, slot, u)
  {
    hide Listed;
    forall day ensures !Listed(days, anchor, day) {
      if Listed(days, anchor, day) {
        var back := BringBack(days, anchor, day, today);
        var near := ListedFarBack(days, anchor, back, today);
      }
    }
  }

  lemma {:induction false} BringBack(days: seq<int>, anchor: Option<int>, day: int, today: int) returns (back: int)
    requires Listed(days, anchor, day)
    ensures back <= today && Listed(days, anchor, back)
    decreases day - today
  {
    hide Listed;
    if day <= today {
      back := day;
    } else {
      ListedRepeats(days, anchor, day);
      back := BringBack(days, anchor, day - if anchor.None? then 7 else 14, today);
    }
  }

  lemma {:induction false} HitIsLatest(days: seq<int>, anchor: Option<int>, slot: int, now: Moment, window: nat, t: int)
    requires Real(now) && 0 <= slot < DAY && window == (if anchor.None? then 7 else 14)
    requires exists o :: 0 <= o < window && Hit(days, anchor, slot, now, o) && t == DailyAt(DayOf(now) - o, slot) &&
                         forall k :: 0 <= k < o ==> !Hit(days, anchor, slot, now, k)
    ensures IsLatest(u => IsListed(days, anchor, slot, u), Instant(now), t)
  {
    hide Listed;
    var o :| 0 <= o < window && Hit(days, anchor, slot, now, o) && t == DailyAt(DayOf(now) - o, slot) &&
             forall k :: 0 <= k < o ==> !Hit(days, anchor, slot, now, k);
    forall u | IsListed(days, anchor, slot, u) && u <= Instant(now) ensures u <= t {
      var day :| u == DailyAt(day, slot) && Listed(days, anchor, day);
      assert day <= DayOf(now);
      assert Hit(days, anchor, slot, now, DayOf(now) - day);
    }
  }

  /** A listed day before today is a hit; today is one unless its time is ahead. */
  lemma {:induction false} ListedHits(days: seq<int>, anchor: Option<int>, slot: int, now: Moment, day: int)
    requires Real(now) && 0 <= slot < DAY && Listed(days, anchor, day) && day <= DayOf(now)
    requires !Hit(days, anchor, slot, now, DayOf(now) - day)
    ensures day == DayOf(now) && slot > now.ms
  {
    hide Listed;
  }

  lemma {:induction false} OnlyToday(days: seq<int>, anchor: Option<int>, slot: int, now: Moment, window: nat)
    requires Real(now) && 0 <= slot < DAY && window == (if anchor.None? then 7 else 14)
    requires !NoneListed(days, anchor, DayOf(now) - window + 1, DayOf(now)) && forall k :: 0 <= k < window ==>
               !Hit(days, anchor, slot, now, k)
    ensures && slot > now.ms && Listed(days, anchor, DayOf(now))
            && NoneListed(days, anchor, DayOf(now) - window + 1, DayOf(now) - 1)
    ensures IsLatest(u => IsListed(days, anchor, slot, u), Instant(now), DailyAt(DayOf(now) - window, slot))
  {
    hide Listed, Hit, DayOf;
    var today := DayOf(now);
    var some :| today - window + 1 <= some <= today && Listed(days, anchor, some);
    ListedHits(days, anchor, slot, now, some);
    forall day | today - window + 1 <= day <= today - 1 ensures !Listed(days, anchor, day) {
      if Listed(days, anchor, day) {
        ListedHits(days, anchor, slot, now, day);
      }
    }
    WindowBack(days, anchor, slot, now, window);
  }

  lemma {:induction false} WindowBack(days: seq<int>, anchor: Option<int>, slot: int, now: Moment, window: nat)
    requires Real(now) && 0 <= slot < DAY && window == (if anchor.None? then 7 else 14) && slot > now.ms
    requires Listed(days, anchor, DayOf(now)) && NoneListed(days, anchor, DayOf(now) - window + 1, DayOf(now) - 1)
    ensures IsLatest(u => IsListed(days, anchor, slot, u), Instant(now), DailyAt(DayOf(now) - window, slot))
  {
    hide Listed, DayOf;
    var today := DayOf(now);
    ListedRepeats(days, anchor, today);
    assert IsListed(days, anchor, slot, DailyAt(today - window, slot));
    forall u | IsListed(days, anchor, slot, u) && u <= Instant(now) ensures u <= DailyAt(today - window, slot) {
      var day :| u == DailyAt(day, slot) && Listed(days, anchor, day);
      assert day < today;
    }
  }

  // ---------------------------------------------------------------------------------
  // Monthly and yearly
  // ---------------------------------------------------------------------------------

  /** monthlyCandidate: the rule's day clamped into the month. */
  function MonthlyAt(month: int, day: int, slot: int): int {
    var d := if day < 1 then 1 else if day > MonthLength(month) then MonthLength(month) else day;
    DailyAt(FirstDay(month) + d - 1, slot)
  }

  /** Month of now.AddDate(0, -1, 0): a day the previous month does not have spills over
      into the current month. */
  function MonthBefore(now: Moment): int {
    if now.day <= MonthLength(now.month - 1) then now.month - 1 else now.month
  }

  /** previousHeartbeatMonthlyAt. */
  function PreviousMonthly(day: int, slot: int, now: Moment): int {
    var candidate := MonthlyAt(now.month, day, slot);
    if candidate > Instant(now) then MonthlyAt(MonthBefore(now), day, slot) else candidate
  }

  /** previousHeartbeatYearlyAt; `of` is the month of the year, 0 to 11. */
  function PreviousYearly(of: int, day: int, slot: int, now: Moment): int {
    var candidate := MonthlyAt(now.month / 12 * 12 + of, day, slot);
    if candidate > Instant(now) then MonthlyAt((now.month / 12 - 1) * 12 + of, day, slot) else candidate
  }

  lemma {:induction false} MonthlyInMonth(month: int, day: int, slot: int)
    requires 0 <= slot < DAY
    ensures FirstDay(month) * DAY <= MonthlyAt(month, day, slot) < (FirstDay(month) + MonthLength(month)) * DAY
  {
  }

  lemma {:induction false} MonthlyGrows(a: int, b: int, day: int, slot: int)
    requires a < b && 0 <= slot < DAY
    ensures MonthlyAt(a, day, slot) < MonthlyAt(b, day, slot)
  {
    hide MonthlyAt;
    MonthlyInMonth(a, day, slot);
    MonthlyInMonth(b, day, slot);
    FirstDayGrows(a, b);
  }

  lemma {:induction false} NowInMonth(now: Moment)
    requires Real(now)
    ensures FirstDay(now.month) * DAY <= Instant(now) < (FirstDay(now.month) + MonthLength(now.month)) * DAY
  {
  }

  ghost predicate IsMonthly(day: int, slot: int, t: int) {
    exists month :: t == MonthlyAt(month, day, slot)
  }

  /** The slot of an earlier month is past, the slot of a later month is ahead. */
  lemma {:induction false} MonthSide(month: int, day: int, slot: int, now: Moment)
    requires Real(now) && 0 <= slot < DAY
    ensures month < now.month ==> MonthlyAt(month, day, slot) < Instant(now)
    ensures month > now.month ==> MonthlyAt(month, day, slot) > Instant(now)
  {
    hide MonthlyAt, Instant;
    MonthlyInMonth(month, day, slot);
    NowInMonth(now);
    if month < now.month {
      FirstDayGrows(month, now.month);
    } else if month > now.month {
      FirstDayGrows(now.month, month);
    }
  }

  /** The monthly rule yields the latest occurrence exactly when this month's slot is not
      ahead or the previous month has today's day; otherwise it yields a future instant. */
  lemma {:induction false} MonthlyIsLatestIff(day: int, slot: int, now: Moment)
    requires Real(now) && 0 <= slot < DAY
    ensures IsLatest(t => IsMonthly(day, slot, t), Instant(now), PreviousMonthly(day, slot, now)) <==>
            (MonthlyAt(now.month, day, slot) <= Instant(now) || now.day <= MonthLength(now.month - 1))
    ensures MonthlyAt(now.month, day, slot) > Instant(now) && now.day > MonthLength(now.month - 1) ==>
              PreviousMonthly(day, slot, now) > Instant(now)
  {
    hide MonthlyAt, Instant;
    var t := PreviousMonthly(day, slot, now);
    if MonthlyAt(now.month, day, slot) <= Instant(now) || now.day <= MonthLength(now.month - 1) {
      var month := if MonthlyAt(now.month, day, slot) <= Instant(now) then now.month else now.month - 1;
      assert t == MonthlyAt(month, day, slot);
      MonthSide(month, day, slot, now);
      forall u | IsMonthly(day, slot, u) && u <= Instant(now) ensures u <= t {
        var other :| u == MonthlyAt(other, day, slot);
        MonthSide(other, day, slot, now);
        if other < month {
          MonthlyGrows(other, month, day, slot);
        }
      }
    }
  }

  /** A date on which the monthly rule misses: on 29 March of a common year the slot of the
      31st is ahead and February has no 29th, so the slot of 28 February is not found. */
  lemma {:induction false} MonthlyMissesFebruary(year: int)
    requires !Leap(year)
    ensures var now := Moment(12 * year + 2, 29, 0);
            Real(now) && PreviousMonthly(31, 0, now) > Instant(now) && MonthlyAt(12 * year + 1, 31, 0) <= Instant(now)
  {
    var now := Moment(12 * year + 2, 29, 0);
    assert (12 * year + 2) % 12 == 2 && (12 * year + 1) % 12 == 1 && (12 * year + 1) / 12 == year;
    MonthSide(12 * year + 1, 31, 0, now);
  }

  ghost predicate IsYearly(of: int, day: int, slot: int, t: int) {
    exists year :: t == MonthlyAt(12 * year + of, day, slot)
  }

  lemma {:induction false} YearlyIsLatest(of: int, day: int, slot: int, now: Moment)
    requires Real(now) && 0 <= slot < DAY && 0 <= of < 12
    ensures IsLatest(t => IsYearly(of, day, slot, t), Instant(now), PreviousYearly(of, day, slot, now))
  {
    hide MonthlyAt, Instant;
    var t, year := PreviousYearly(of, day, slot, now), now.month / 12;
    var found := if MonthlyAt(12 * year + of, day, slot) <= Instant(now) then year else year - 1;
    assert year * 12 == 12 * year && (year - 1) * 12 == 12 * (year - 1);
    assert t == MonthlyAt(12 * found + of, day, slot);
    MonthSide(12 * found + of, day, slot, now);
    forall u | IsYearly(of, day, slot, u) && u <= Instant(now) ensures u <= t {
      var other :| u == MonthlyAt(12 * other + of, day, slot);
      MonthSide(12 * other + of, day, slot, now);
      assert other <= found;
      if other < found {
        MonthlyGrows(12 * other + of, 12 * found + of, day, slot);
      }
    }
  }

  // ---------------------------------------------------------------------------------
  // Due tasks
  // ---------------------------------------------------------------------------------

  datatype Rule =
    | Daily(slot: int)
    | Weekly(days: seq<int>, slot: int)
    | Biweekly(days: seq<int>, slot: int)
    | Monthly(day: int, slot: int)
    | Yearly(of: int, day: int, slot: int)
    | NoRule

  /** A scheduled task: its calendar rule, the plain interval before it (0 when unusable), the
      daily window in minutes, and its stamps (0: never). */
  datatype Task = Task(rule: Rule, interval: int, from: Option<int>, until: Option<int>, createdAt: int, lastRunAt: int)

  /** heartbeatWithinTimeWindow. */
  predicate WithinWindow(t: Task, minutes: int) {
    match (t.from, t.until)
    case (None, None) => true
    case (Some(a), None) => minutes >= a
    case (None, Some(b)) => minutes < b
    case (Some(a), Some(b)) => if a < b then a <= minutes < b else minutes >= a || minutes < b
  }

  /** heartbeatScheduleAnchor: the day the biweekly parity counts from. */
  function AnchorDay(t: Task, now: Moment): int {
    (if t.createdAt != 0 then t.createdAt else if t.lastRunAt != 0 then t.lastRunAt else Instant(now)) / DAY
  }

  /** previousHeartbeatScheduleAt. */
  function Scheduled(t: Task, now: Moment): Option<int> {
    match t.rule
    case Daily(slot) => Some(PreviousDaily(slot, now))
    case Weekly(days, slot) => FirstHit(days, None, slot, now, 0, 7)
    case Biweekly(days, slot) => FirstHit(days, Some(AnchorDay(t, now)), slot, now, 0, 14)
    case Monthly(day, slot) => Some(PreviousMonthly(day, slot, now))
    case Yearly(of, day, slot) => Some(PreviousYearly(of, day, slot, now))
    case NoRule => None
  }

  /** heartbeatTaskDueAt. */
  predicate Due(t: Task, now: Moment) {
    match Scheduled(t, now)
    case Some(at) =>
      !(t.createdAt != 0 && at < t.createdAt) && !(t.lastRunAt != 0 && t.lastRunAt >= at) && at <= Instant(now)
    case None => IntervalDue(t, now)
  }

  /** heartbeatTaskDueAt without a scheduled occurrence. */
  predicate IntervalDue(t: Task, now: Moment) {
    t.interval > 0 &&
    (var base := if t.lastRunAt != 0 then t.lastRunAt else t.createdAt;
     (base == 0 || Instant(now) - base >= t.interval) && WithinWindow(t, now.ms / 60000))
  }

  /** How executeTaskOwned ended: the prompt was submitted, the topic or tab could not be
      opened, or the controller was not ready and the run is left for a later tick. */
  datatype Ending = Submitted | Failed | Deferred

  /** One tick of the scheduler: the moment it looks at the clock, how a due run ends, the stamp
      it gets, and the tick whose task list first shows the completion.  That is the next one when
      the merge goes through, a later one when it was written but could not be read back, and none
      when the merge dropped it. */
  datatype Tick = Tick(now: Moment, ending: Ending, stamp: int, shows: Option<nat>)

  /** The completion of a run merged into the task. */
  function MergeRun(t: Task, tick: Tick): Task {
    t.(lastRunAt := Max(t.lastRunAt, tick.stamp),
    createdAt := if t.createdAt == 0 && tick.ending.Submitted? then tick.stamp else t.createdAt)
  }

  /** The task as tick `j` reads it: merged with every completion that shows by then. */
  ghost function TaskAt(t: Task, ticks: seq<Tick>, j: nat): Task
    requires j <= |ticks|
    decreases j, j + 1
  {
    MergedFrom(t, ticks, j, j)
  }

  ghost function MergedFrom(t: Task, ticks: seq<Tick>, j: nat, k: nat): Task
    requires k <= j <= |ticks|
    decreases j, k
  {
    if k == 0 then t
    else
      var before := MergedFrom(t, ticks, j, k - 1);
      if Fires(t, ticks, k - 1) && ShownBy(ticks, k - 1, j) then MergeRun(before, ticks[k - 1]) else before
  }

  /** Tick `i` runs the task. */
  ghost predicate Fires(t: Task, ticks: seq<Tick>, i: nat)
    requires i < |ticks|
    decreases i, i + 2
  {
    Due(TaskAt(t, ticks, i), ticks[i].now) && !ticks[i].ending.Deferred?
  }

  predicate ShownBy(ticks: seq<Tick>, k: nat, j: nat)
    requires k < |ticks|
  {
    ticks[k].shows.Some? && ticks[k].shows.value <= j
  }

  /** The clock never runs backwards, a run is stamped when it ends, and shows at a later tick. */
  ghost predicate ClockRuns(ticks: seq<Tick>) {
    && (forall i :: 0 <= i < |ticks| ==> Real(ticks[i].now) && 0 < Instant(ticks[i].now) <= ticks[i].stamp)
    && (forall i, j :: 0 <= i < j < |ticks| ==> ticks[i].stamp <= Instant(ticks[j].now))
    && (forall i :: 0 <= i < |ticks| && ticks[i].shows.Some? ==> ticks[i].shows.value > i)
  }

  /** Tick `k` ran the task and tick `j` knows. */
  ghost predicate Known(t: Task, ticks: seq<Tick>, k: int, j: nat)
    requires j <= |ticks|
  {
    0 <= k < j && Fires(t, ticks, k) && ShownBy(ticks, k, j)
  }

  /** The occurrence tick `i` looks at. */
  ghost function ServedAt(t: Task, ticks: seq<Tick>, i: nat): Option<int>
    requires i < |ticks|
  {
    Scheduled(TaskAt(t, ticks, i), ticks[i].now)
  }

  /** The newest stamp a tick knows is the task's own or that of a run it knows. */
  lemma {:induction false} MergedStamps(t: Task, ticks: seq<Tick>, j: nat, k: nat, x: int)
    requires k <= j <= |ticks|
    ensures MergedFrom(t, ticks, j, k).lastRunAt >= x <==>
            t.lastRunAt >= x || exists m :: 0 <= m < k && Known(t, ticks, m, j) && ticks[m].stamp >= x
  {
    hide Fires;
    if k > 0 {
      MergedStamps(t, ticks, j, k - 1, x);
      assert Known(t, ticks, k - 1, j) <==> Fires(t, ticks, k - 1) && ShownBy(ticks, k - 1, j);
    }
  }

  /** A creation stamp a tick sees is the task's own or that of a run it knows. */
  lemma {:induction false} MergedCreation(t: Task, ticks: seq<Tick>, j: nat, k: nat)
    requires k <= j <= |ticks|
    ensures var c := MergedFrom(t, ticks, j, k).createdAt;
            c == t.createdAt || exists m :: 0 <= m < k && Known(t, ticks, m, j) && ticks[m].stamp == c
    ensures t.createdAt != 0 ==> MergedFrom(t, ticks, j, k).createdAt == t.createdAt
  {
    hide Fires;
    if k > 0 {
      MergedCreation(t, ticks, j, k - 1);
      assert Known(t, ticks, k - 1, j) <==> Fires(t, ticks, k - 1) && ShownBy(ticks, k - 1, j);
    }
  }

  lemma {:induction false} RuleIsKept(t: Task, ticks: seq<Tick>, j: nat, k: nat)
    requires k <= j <= |ticks|
    ensures MergedFrom(t, ticks, j, k).rule == t.rule
  {
    hide Fires;
    if k > 0 {
      RuleIsKept(t, ticks, j, k - 1);
    }
  }

  /** A run stamped at or after the occurrence `at` is known at tick `j`. */
  ghost predicate ServedBefore(t: Task, ticks: seq<Tick>, j: nat, at: int)
    requires j <= |ticks|
  {
    exists m :: Known(t, ticks, m, j) && ticks[m].stamp >= at
  }

  /** While an occurrence that was served is still the current one, the task is due for it again
      exactly when no run stamped at or after the occurrence is known. */
  lemma {:induction false} ServesAgainIff(t: Task, ticks: seq<Tick>, i: nat, j: nat)
    requires ClockRuns(ticks) && i < j < |ticks| && Fires(t, ticks, i) && t.lastRunAt >= 0
    requires ServedAt(t, ticks, i).Some? && ServedAt(t, ticks, j) == ServedAt(t, ticks, i)
    ensures Due(TaskAt(t, ticks, j), ticks[j].now) <==> !ServedBefore(t, ticks, j, ServedAt(t, ticks, i).value)
  {
    hide Instant, Scheduled, Real, MergedFrom, Fires;
    var at := ServedAt(t, ticks, i).value;
    FiresWhenDue(t, ticks, i);
    MergedStamps(t, ticks, i, i, at);
    MergedStamps(t, ticks, i, i, 1);
    MergedStamps(t, ticks, j, j, at);
    MergedStamps(t, ticks, j, j, 1);
    MergedStamps(t, ticks, j, j, 0);
    MergedStamps(t, ticks, i, i, 0);
    MergedCreation(t, ticks, i, i);
    MergedCreation(t, ticks, j, j);
    assert at <= Instant(ticks[i].now) <= Instant(ticks[j].now);
    assert t.lastRunAt < at || t.lastRunAt == 0;
  }

  lemma {:induction false} FiresWhenDue(t: Task, ticks: seq<Tick>, i: nat)
    requires i < |ticks| && Fires(t, ticks, i)
    ensures Due(TaskAt(t, ticks, i), ticks[i].now)
  {
  }

  /** Slots lie within the day, months within the year. */
  predicate ValidRule(rule: Rule) {
    match rule
    case NoRule => true
    case Yearly(of, _, slot) => 0 <= slot < DAY && 0 <= of < 12
    case _ => 0 <= rule.slot < DAY
  }

  /** The occurrences of the rule of a task, as seen at `now`. */
  ghost predicate Occurs(t: Task, now: Moment, u: int) {
    match t.rule
    case Daily(slot) => IsDaily(slot, u)
    case Weekly(days, slot) => IsListed(days, None, slot, u)
    case Biweekly(days, slot) => IsListed(days, Some(AnchorDay(t, now)), slot, u)
    case Monthly(day, slot) => IsMonthly(day, slot, u)
    case Yearly(of, day, slot) => IsYearly(of, day, slot, u)
    case NoRule => false
  }

  ghost predicate LatestOccurrence(t: Task, now: Moment, at: int) {
    Occurs(t, now, at) && at <= Instant(now) && forall u :: Occurs(t, now, u) && u <= Instant(now) ==> u <= at
  }

  /** The occurrence a due task is due for is the latest one of its rule, for every rule. */
  lemma {:induction false} DueForLatest(t: Task, now: Moment)
    requires Real(now) && ValidRule(t.rule) && Due(t, now) && Scheduled(t, now).Some?
    ensures LatestOccurrence(t, now, Scheduled(t, now).value)
  {
    hide Instant, PreviousDaily, PreviousMonthly, PreviousYearly, FirstHit, IsDaily, IsMonthly, IsYearly, IsListed,
      Real;
    match t.rule
    case Daily(slot) =>
      DailyIsLatest(slot, now);
      LatestOf(t, now, u => IsDaily(slot, u));
    case Weekly(days, slot) =>
      WeeklyIsLatestIff(days, None, slot, now);
      LatestOf(t, now, u => IsListed(days, None, slot, u));
    case Biweekly(days, slot) =>
      WeeklyIsLatestIff(days, Some(AnchorDay(t, now)), slot, now);
      LatestOf(t, now, u => IsListed(days, Some(AnchorDay(t, now)), slot, u));
    case Monthly(day, slot) =>
      MonthlyIsLatestIff(day, slot, now);
      LatestOf(t, now, u => IsMonthly(day, slot, u));
    case Yearly(of, day, slot) =>
      YearlyIsLatest(of, day, slot, now);
      LatestOf(t, now, u => IsYearly(of, day, slot, u));
    case NoRule =>
  }

  lemma {:induction false} LatestOf(t: Task, now: Moment, occurs: int -> bool)
    requires Scheduled(t, now).Some? && IsLatest(occurs, Instant(now), Scheduled(t, now).value)
    requires forall u :: Occurs(t, now, u) == occurs(u)
    ensures LatestOccurrence(t, now, Scheduled(t, now).value)
  {
    hide Occurs, Scheduled;
  }

  /** Two runs of a scheduled task, under any rule: each serves the latest occurrence at its tick,
      and a known run in between makes the later occurrence a new one, strictly after that run.
      Only runs that are not known yet can serve one occurrence twice. */
  lemma {:induction false} FiringsServeDistinctOccurrences(t: Task, ticks: seq<Tick>, i: nat, j: nat)
    requires ClockRuns(ticks) && i < j < |ticks| && ValidRule(t.rule)
    requires Fires(t, ticks, i) && Fires(t, ticks, j) && ServedAt(t, ticks, i).Some? && ServedAt(t, ticks, j).Some?
    ensures var earlier, later := ServedAt(t, ticks, i).value, ServedAt(t, ticks, j).value;
            && LatestOccurrence(TaskAt(t, ticks, i), ticks[i].now, earlier)
            && LatestOccurrence(TaskAt(t, ticks, j), ticks[j].now, later)
            && (forall k :: Known(t, ticks, k, j) ==> ticks[k].stamp < later)
            && (forall k :: i <= k && Known(t, ticks, k, j) ==>
                  earlier <= Instant(ticks[i].now) <= ticks[k].stamp < later)
            && (earlier == later ==> forall k :: i <= k < j ==> !Known(t, ticks, k, j))
  {
    hide Instant, Scheduled, Real, LatestOccurrence, ValidRule, MergedFrom, Fires;
    RuleIsKept(t, ticks, i, i);
    RuleIsKept(t, ticks, j, j);
    FiresWhenDue(t, ticks, i);
    FiresWhenDue(t, ticks, j);
    DueForLatest(TaskAt(t, ticks, i), ticks[i].now);
    DueForLatest(TaskAt(t, ticks, j), ticks[j].now);
    var later := ServedAt(t, ticks, j).value;
    MergedStamps(t, ticks, j, j, later);
    forall k | Known(t, ticks, k, j) ensures ticks[k].stamp < later {
      MergedStamps(t, ticks, j, j, ticks[k].stamp);
      assert ticks[k].stamp > 0;
    }
    forall k | i <= k && Known(t, ticks, k, j) ensures Instant(ticks[i].now) <= ticks[k].stamp {
      assert Instant(ticks[k].now) <= ticks[k].stamp;
    }
  }

  /** A daily task run at nine and again half a minute later, because the first completion was
      dropped or shows too late. */
  lemma {:induction false} UnknownRunFiresTwice(now: Moment, shows: Option<nat>)
    requires Real(now) && now.ms == 9 * 3600000 && Instant(now) > 0 && (shows.Some? ==> shows.value > 1)
    ensures var t, later := Task(Daily(9 * 3600000), 0, None, None, 0, 0), now.(ms := now.ms + 30000);
            var ticks := [Tick(now, Submitted, Instant(now), shows), Tick(later, Submitted, Instant(later), Some(2))];
            && ClockRuns(ticks) && Fires(t, ticks, 0) && Fires(t, ticks, 1)
            && ServedAt(t, ticks, 0) == ServedAt(t, ticks, 1) == Some(Instant(now))
  {
    hide FirstDay, MonthLength;
    var t, later := Task(Daily(9 * 3600000), 0, None, None, 0, 0), now.(ms := now.ms + 30000);
    var ticks := [Tick(now, Submitted, Instant(now), shows), Tick(later, Submitted, Instant(later), Some(2))];
    assert TaskAt(t, ticks, 0) == t;
    assert MergedFrom(t, ticks, 1, 0) == t;
    assert TaskAt(t, ticks, 1) == t;
  }

  /** The plain interval runs a weekly or biweekly task exactly when it is due by the interval and
      either its rule lists no day at all, or the only listed day of the past window is today and
      its time is still ahead. */
  lemma {:induction false} IntervalFiresIff(t: Task, now: Moment)
    requires Real(now) && ValidRule(t.rule) && (t.rule.Weekly? || t.rule.Biweekly?)
    ensures var anchor := if t.rule.Weekly? then None else Some(AnchorDay(t, now));
            var days, slot, window, today := t.rule.days, t.rule.slot, if t.rule.Weekly? then 7 else 14, DayOf(now);
            (Due(t, now) && Scheduled(t, now).None?) <==>
            (IntervalDue(t, now) &&
             ((forall u :: !IsListed(days, anchor, slot, u)) ||
              (slot > now.ms && Listed(days, anchor, today) &&
                NoneListed(days, anchor, today - window + 1, today - 1))))
  {
    hide FirstHit, Real, Instant, WithinWindow, Listed, IsListed, NoneListed, DayOf;
    var anchor := if t.rule.Weekly? then None else Some(AnchorDay(t, now));
    var days, slot, window, today := t.rule.days, t.rule.slot, if t.rule.Weekly? then 7 else 14, DayOf(now);
    WeeklyIsLatestIff(days, anchor, slot, now);
    WeeklyNone(days, anchor, slot, now);
  }

  lemma {:induction false} WeeklyNone(days: seq<int>, anchor: Option<int>, slot: int, now: Moment)
    requires Real(now) && 0 <= slot < DAY
    ensures var window := if anchor.None? then 7 else 14; var today := DayOf(now);
            FirstHit(days, anchor, slot, now, 0, window).None? <==>
            ((forall u :: !IsListed(days, anchor, slot, u)) ||
             (slot > now.ms && Listed(days, anchor, today) && NoneListed(days, anchor, today - window + 1, today - 1)))
  {
    hide Listed, Real, Instant, DayOf;
    var window, today := if anchor.None? then 7 else 14, DayOf(now);
    WeeklyIsLatestIff(days, anchor, slot, now);
    FirstHitIs(days, anchor, slot, now, 0, window);
    if FirstHit(days, anchor, slot, now, 0, window).Some? {
      var o :| 0 <= o < window && Hit(days, anchor, slot, now, o);
      HitIsListed(days, anchor, slot, now, o);
    }
  }

  lemma {:induction false} HitIsListed(days: seq<int>, anchor: Option<int>, slot: int, now: Moment, o: int)
    requires Real(now) && Hit(days, anchor, slot, now, o) && o >= 0
    ensures IsListed(days, anchor, slot, DailyAt(DayOf(now) - o, slot))
    ensures Listed(days, anchor, DayOf(now) - o) && (o == 0 ==> slot <= now.ms)
  {
    hide Listed, DayOf;
  }

  /** A weekly task whose only day is today fires before today's time when it has never run:
      no occurrence is found, so the plain interval decides. */
  lemma {:induction false} WeeklyFiresEarly(now: Moment)
    requires Real(now) && now.ms < 9 * 3600000
    ensures Due(Task(Weekly([Weekday(DayOf(now))], 9 * 3600000), 7 * DAY, None, None, 0, 0), now)
  {
    hide DayOf;
    var days, today := [Weekday(DayOf(now))], DayOf(now);
    forall o | 0 <= o < 7 ensures !Hit(days, None, 9 * 3600000, now, o) {
      if o > 0 {
        OtherWeekday(today, o);
        assert Weekday(today - o) != days[0];
      }
    }
    FirstHitIs(days, None, 9 * 3600000, now, 0, 7);
  }

  lemma {:induction false} OtherWeekday(day: int, o: int)
    requires 0 < o < 7
    ensures Weekday(day - o) != Weekday(day)
  {
  }
}
