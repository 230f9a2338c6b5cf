/** The proleptic Gregorian calendar at microsecond grain, and the monthly billing cycle of
    MeteringService._get_current_cycle built on it. */
module Calendar {

  const SECOND := 1_000_000
  const DAY := 86_400 * SECOND

  /** A timezone-aware UTC datetime. */
  datatype DateTime = DateTime(year: int, month: int, day: int, hour: int, minute: int, second: int, micro: int)

  predicate IsLeap(y: int) {
    y % 4 == 0 && (y % 100 != 0 || y % 400 == 0)
  }

  /** calendar.monthrange(y, m)[1]. */
  function DaysInMonth(y: int, m: int): int {
    if m == 2 then (if IsLeap(y) then 29 else 28)
    else if m in {4, 6, 9, 11} then 30
    else 31
  }

  predicate Valid(t: DateTime) {
    && 1 <= t.year && 1 <= t.month <= 12 && 1 <= t.day <= DaysInMonth(t.year, t.month)
    && 0 <= t.hour < 24 && 0 <= t.minute < 60 && 0 <= t.second < 60 && 0 <= t.micro < SECOND
  }

  function DaysBeforeYear(y: int): int {
    var p := y - 1;
    365 * p + p / 4 - p / 100 + p / 400
  }

  function DaysBeforeMonth(y: int, m: int): int
    decreases m
  {
    if m <= 1 then 0 else DaysBeforeMonth(y, m - 1) + DaysInMonth(y, m - 1)
  }

  /** Days from 0001-01-01 to the given date. */
  function DayNumber(y: int, m: int, d: int): int {
    DaysBeforeYear(y) + DaysBeforeMonth(y, m) + d - 1
  }

  /** Microseconds from 0001-01-01T00:00 to t. */
  function Instant(t: DateTime): int {
    DayNumber(t.year, t.month, t.day) * DAY + ((t.hour * 60 + t.minute) * 60 + t.second) * SECOND + t.micro
  }

  /** The pair returned by _get_current_cycle: `now` with its lower fields replaced. */
  function CurrentCycle(now: DateTime): (DateTime, DateTime) {
    var start := now.(day := 1, hour := 0, minute := 0, second := 0, micro := 0);
    var lastDay := DaysInMonth(now.year, now.month);
    var end := now.(day := lastDay, hour := 23, minute := 59, second := 59, micro := 999_999);
    (start, end)
  }

  function CycleStart(t: DateTime): int { Instant(CurrentCycle(t).0) }

  function CycleEnd(t: DateTime): int { Instant(CurrentCycle(t).1) }

  function MonthStart(y: int, m: int): int { DayNumber(y, m, 1) * DAY }

  /** The first instant of the month after the given one. */
  function MonthAfter(y: int, m: int): int {
    if m == 12 then MonthStart(y + 1, 1) else MonthStart(y, m + 1)
  }

  lemma DaysInYear(y: int)
    ensures DaysBeforeMonth(y, 12) + DaysInMonth(y, 12) == if IsLeap(y) then 366 else 365
  {
    assert DaysBeforeMonth(y, 3) == 31 + DaysInMonth(y, 2);
    assert DaysBeforeMonth(y, 5) == DaysBeforeMonth(y, 3) + 61;
    assert DaysBeforeMonth(y, 7) == DaysBeforeMonth(y, 5) + 61;
    assert DaysBeforeMonth(y, 9) == DaysBeforeMonth(y, 7) + 62;
    assert DaysBeforeMonth(y, 11) == DaysBeforeMonth(y, 9) + 61;
  }

  lemma YearLength(y: int)
    ensures DaysBeforeYear(y + 1) == DaysBeforeYear(y) + DaysBeforeMonth(y, 12) + DaysInMonth(y, 12)
  {
    DaysInYear(y);
    LeapDays(y);
  }

  /** The multiples of 4, 100 and 400 up to a year. */
  lemma LeapDays(y: int)
    ensures y / 4 - y / 100 + y / 400 == (y - 1) / 4 - (y - 1) / 100 + (y - 1) / 400 + if IsLeap(y) then 1 else 0
  {
    Carry4(y);
    Carry100(y);
    Carry400(y);
    Multiples(y);
  }

  lemma Multiples(y: int)
    ensures y % 400 == 0 ==> y % 100 == 0
    ensures y % 100 == 0 ==> y % 4 == 0
  {
    FourHundreds(y / 400);
    Hundreds(y / 100);
  }

  lemma FourHundreds(k: int)
    ensures (400 * k) % 100 == 0
  {
  }

  lemma Hundreds(k: int)
    ensures (100 * k) % 4 == 0
  {
  }

  lemma Carry4(y: int)
    ensures y / 4 == (y - 1) / 4 + if y % 4 == 0 then 1 else 0
  {
  }

  lemma Carry100(y: int)
    ensures y / 100 == (y - 1) / 100 + if y % 100 == 0 then 1 else 0
  {
  }

  lemma Carry400(y: int)
    ensures y / 400 == (y - 1) / 400 + if y % 400 == 0 then 1 else 0
  {
  }

  /** A month ends where the next one starts, also across a year's end. */
  lemma NextMonth(y: int, m: int)
    requires 1 <= m <= 12
    ensures MonthAfter(y, m) == MonthStart(y, m) + DaysInMonth(y, m) * DAY
  {
    hide DaysBeforeYear, DaysInMonth;
    if m == 12 {
      hide DaysBeforeMonth;
      YearLength(y);
      assert DaysBeforeMonth(y + 1, 1) == 0 by { NoDaysBeforeJanuary(y + 1); }
    } else {
      assert DaysBeforeMonth(y, m + 1) == DaysBeforeMonth(y, m) + DaysInMonth(y, m);
    }
  }

  lemma NoDaysBeforeJanuary(y: int)
    ensures DaysBeforeMonth(y, 1) == 0
  {
  }

  predicate Before(y: int, m: int, y': int, m': int) {
    y < y' || (y == y' && m < m')
  }

  lemma {:induction false} MonthsAscend(y: int, m: int, y': int, m': int)
    requires 1 <= m <= 12 && 1 <= m' <= 12 && Before(y, m, y', m')
    ensures MonthAfter(y, m) <= MonthStart(y', m')
    decreases 12 * (y' - y) + m' - m
  {
    hide DayNumber;
    var ny, nm := if m == 12 then y + 1 else y, if m == 12 then 1 else m + 1;
    if Before(ny, nm, y', m') {
      NextMonth(ny, nm);
      MonthHasDays(ny, nm);
      MonthsAscend(ny, nm, y', m');
    }
  }

  lemma MonthHasDays(y: int, m: int)
    ensures DaysInMonth(y, m) >= 28
  {
  }

  lemma CycleIsMonth(t: DateTime)
    requires Valid(t)
    ensures CycleStart(t) == MonthStart(t.year, t.month)
    ensures CycleEnd(t) + 1 == MonthAfter(t.year, t.month)
  {
    hide DaysBeforeYear, DaysBeforeMonth, DaysInMonth;
    NextMonth(t.year, t.month);
  }

  /** Both ends are real datetimes and the instant lies between them. */
  lemma CycleContainsNow(now: DateTime)
    requires Valid(now)
    ensures Valid(CurrentCycle(now).0) && Valid(CurrentCycle(now).1)
    ensures CycleStart(now) <= Instant(now) <= CycleEnd(now)
  {
    hide DaysBeforeYear, DaysBeforeMonth;
    MonthHasDays(now.year, now.month);
    assert (now.hour * 60 + now.minute) * 60 + now.second <= 86_399;
  }

  /** Exactly one cycle holds any instant: it is the one computed at that instant. */
  lemma CycleDecided(now: DateTime, other: DateTime)
    requires Valid(now) && Valid(other)
    ensures CycleStart(now) <= Instant(other) <= CycleEnd(now) <==> CycleStart(now) == CycleStart(other)
    ensures CycleStart(now) == CycleStart(other) <==> now.year == other.year && now.month == other.month
    ensures CycleStart(now) == CycleStart(other) ==> CycleEnd(now) == CycleEnd(other)
    ensures CycleStart(now) < CycleStart(other) ==> CycleEnd(now) < CycleStart(other)
  {
    CycleIsMonth(now);
    CycleIsMonth(other);
    CycleContainsNow(now);
    CycleContainsNow(other);
    hide Instant, DayNumber, CurrentCycle;
    if Before(now.year, now.month, other.year, other.month) {
      MonthsAscend(now.year, now.month, other.year, other.month);
    } else if Before(other.year, other.month, now.year, now.month) {
      MonthsAscend(other.year, other.month, now.year, now.month);
    }
  }

  /** The days before a month in closed form, January first. */
  lemma MonthOffsets(y: int, m: int)
    requires 1 <= m <= 12
    ensures DaysBeforeMonth(y, m) == (367 * m - 362) / 12 - if m <= 2 then 0 else if IsLeap(y) then 1 else 2
    ensures DaysInMonth(y, m) in {28, 29, 30, 31} && (DaysInMonth(y, m) == 29 <==> m == 2 && IsLeap(y))
    decreases m
  {
    if m > 1 { MonthOffsets(y, m - 1); }
  }

  /** a comes before b, field by field. */
  predicate Earlier(a: DateTime, b: DateTime) {
    || a.year < b.year
    || (a.year == b.year && (a.month < b.month || (a.month == b.month && EarlierInMonth(a, b))))
  }

  predicate EarlierInMonth(a: DateTime, b: DateTime) {
    || a.day < b.day
    || (a.day == b.day && (a.hour < b.hour || (a.hour == b.hour && (a.minute < b.minute
        || (a.minute == b.minute && (a.second < b.second || (a.second == b.second && a.micro < b.micro)))))))
  }

  lemma InMonthOrder(a: DateTime, b: DateTime)
    requires Valid(a) && Valid(b) && a.year == b.year && a.month == b.month
    ensures Instant(a) < Instant(b) <==> EarlierInMonth(a, b)
  {
    hide DaysBeforeYear, DaysBeforeMonth, DaysInMonth;
  }

  /** Instants follow the order of the fields. */
  lemma InstantOrder(a: DateTime, b: DateTime)
    requires Valid(a) && Valid(b)
    ensures Instant(a) < Instant(b) <==> Earlier(a, b)
  {
    hide Instant, CurrentCycle, DaysInMonth, EarlierInMonth;
    CycleDecided(a, b);
    CycleDecided(b, a);
    CycleContainsNow(a);
    CycleContainsNow(b);
    if a.year == b.year && a.month == b.month {
      InMonthOrder(a, b);
    } else {
      StartsAscend(a, b);
      StartsAscend(b, a);
    }
  }

  lemma StartsAscend(a: DateTime, b: DateTime)
    requires Valid(a) && Valid(b)
    ensures Before(a.year, a.month, b.year, b.month) ==> CycleStart(a) < CycleStart(b)
  {
    hide Instant, DayNumber, CurrentCycle;
    CycleIsMonth(a);
    CycleIsMonth(b);
    CycleContainsNow(a);
    if Before(a.year, a.month, b.year, b.month) { MonthsAscend(a.year, a.month, b.year, b.month); }
  }

  /** The cycles tile the timeline: one microsecond after a cycle's end the next month starts. */
  lemma CyclesTile(now: DateTime, next: DateTime)
    requires Valid(now) && Valid(next)
    requires next == if now.month == 12 then DateTime(now.year + 1, 1, 1, 0, 0, 0, 0)
                     else DateTime(now.year, now.month + 1, 1, 0, 0, 0, 0)
    ensures CycleEnd(now) + 1 == Instant(next) == CycleStart(next)
  {
    CycleIsMonth(now);
    CycleIsMonth(next);
  }

  lemma CycleStartMonotone(a: DateTime, b: DateTime)
    requires Valid(a) && Valid(b) && Instant(a) <= Instant(b)
    ensures CycleStart(a) <= CycleStart(b)
  {
    hide Instant, CurrentCycle;
    CycleDecided(a, b);
    CycleDecided(b, a);
    CycleContainsNow(a);
    CycleContainsNow(b);
  }
}
