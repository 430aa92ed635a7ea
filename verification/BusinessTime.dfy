/**
 Business time (packages/shared/src/review-target.ts): Monday to Friday in UTC. The loops are tied to
 one clock that stands still at weekends; what the review targets rely on follows from it.
 */
module BusinessTime {
  import opened Common

  const DAY := 86400000
  const WEEK := 7 * DAY
  /** From a Monday 00:00 to the epoch, a Thursday 00:00. */
  const EPOCH := 3 * DAY

  /** 0 is Sunday, 6 is Saturday. */
  function UtcDow(t: int): (dow: int)
    ensures 0 <= dow <= 6
  {
    (t / DAY + 4) % 7
  }

  predicate IsWeekend(t: int) { UtcDow(t) == 0 || UtcDow(t) == 6 }

  /** Day after day; the epoch was a Thursday. */
  lemma WeekdaysInTurn(t: int)
    ensures UtcDow(0) == 4 && UtcDow(t + DAY) == (UtcDow(t) + 1) % 7 && UtcDow(t / DAY * DAY) == UtcDow(t)
  {
    var n := t / DAY;
    DayQuotient(t + DAY, n + 1, t % DAY);
    DayQuotient(n * DAY, n, 0);
    DayQuotient(0, 0, 0);
    NextOfSeven(n + 4);
  }

  lemma DayQuotient(v: int, q: int, r: int)
    requires v == q * DAY + r && 0 <= r < DAY
    ensures v / DAY == q
  {
  }

  lemma NextOfSeven(n: int)
    ensures (n + 1) % 7 == (n % 7 + 1) % 7
  {
  }

  /** The business clock: it gains five days a week and stands still from Saturday to Monday. */
  function Clock(t: int): int {
    var u := t + EPOCH;
    u / WEEK * 5 * DAY + Min(u % WEEK, 5 * DAY)
  }

  /** The weekday instant at which the clock reads a value. */
  function At(clock: int): int {
    clock / (5 * DAY) * WEEK + clock % (5 * DAY) - EPOCH
  }

  /** How far into its week an instant is, counted from Monday 00:00, decides its weekday. */
  lemma WeekPosition(t: int)
    ensures var u := t + EPOCH;
      && t / DAY == u / WEEK * 7 + u % WEEK / DAY - 3
      && UtcDow(t) == (u % WEEK / DAY + 1) % 7
      && (IsWeekend(t) <==> u % WEEK >= 5 * DAY)
      && (UtcDow(t) == 6 <==> 5 * DAY <= u % WEEK < 6 * DAY)
  {
    var u := t + EPOCH;
    var w, r := u / WEEK, u % WEEK;
    assert u == w * WEEK + r && 0 <= r < WEEK;
    var d := r / DAY;
    assert r == d * DAY + r % DAY && 0 <= d <= 6;
    assert t == (w * 7 + d - 3) * DAY + r % DAY;
    assert t / DAY == w * 7 + d - 3;
    assert (w * 7 + d - 3 + 4) % 7 == (d + 1) % 7;
  }

  /** The clock never runs backwards, nor faster than time. */
  lemma ClockAdvances(s: int, t: int)
    requires s <= t
    ensures 0 <= Clock(t) - Clock(s) <= t - s
  {
    var u, v := s + EPOCH, t + EPOCH;
    var w, x := u / WEEK, v / WEEK;
    assert u == w * WEEK + u % WEEK && v == x * WEEK + v % WEEK;
    assert w <= x;
    if w < x {
      assert (x - w) * WEEK >= WEEK;
    }
  }

  lemma WeekQuotient(v: int, q: int, r: int)
    requires v == q * WEEK + r && 0 <= r < WEEK
    ensures v / WEEK == q && v % WEEK == r
  {
  }

  lemma FiveDayQuotient(v: int, q: int, r: int)
    requires v == q * (5 * DAY) + r && 0 <= r < 5 * DAY
    ensures v / (5 * DAY) == q && v % (5 * DAY) == r
  {
  }

  lemma ClockOfAt(clock: int)
    ensures Clock(At(clock)) == clock && !IsWeekend(At(clock))
  {
    var q, r := clock / (5 * DAY), clock % (5 * DAY);
    assert clock == q * (5 * DAY) + r;
    WeekQuotient(At(clock) + EPOCH, q, r);
    assert !IsWeekend(At(clock)) by { WeekPosition(At(clock)); }
  }

  lemma AtOfClock(t: int)
    requires !IsWeekend(t)
    ensures At(Clock(t)) == t
  {
    var u := t + EPOCH;
    assert u % WEEK < 5 * DAY by { WeekPosition(t); }
    assert u == u / WEEK * WEEK + u % WEEK;
    FiveDayQuotient(Clock(t), u / WEEK, u % WEEK);
  }

  /** On a weekday the clock determines the instant. */
  lemma ClockDetermines(t: int)
    ensures Clock(At(t)) == t && !IsWeekend(At(t))
    ensures !IsWeekend(t) ==> At(Clock(t)) == t
  {
    hide Clock, At, IsWeekend;
    ClockOfAt(t);
    if !IsWeekend(t) {
      AtOfClock(t);
    }
  }

  /** A weekend instant reads what the Monday after it reads. */
  lemma WeekendReadsMonday(t: int)
    requires IsWeekend(t)
    ensures var monday := t / DAY * DAY + (if UtcDow(t) == 6 then 2 else 1) * DAY;
      !IsWeekend(monday) && Clock(monday) == Clock(t) && t < monday && monday == At(Clock(t))
  {
    WeekPosition(t);
    var u := t + EPOCH;
    var w, r := u / WEEK, u % WEEK;
    var d := r / DAY;
    assert d == 5 || d == 6;
    var monday := t / DAY * DAY + (if UtcDow(t) == 6 then 2 else 1) * DAY;
    assert t / DAY * DAY == (w * 7 + d - 3) * DAY;
    assert UtcDow(t) == 6 <==> d == 5;
    assert monday == (w + 1) * WEEK - EPOCH;
    var m := monday + EPOCH;
    assert m / WEEK == w + 1 && m % WEEK == 0;
    WeekPosition(monday);
    assert Clock(t) == w * 5 * DAY + 5 * DAY == (w + 1) * (5 * DAY);
    assert Clock(t) / (5 * DAY) == w + 1 && Clock(t) % (5 * DAY) == 0;
  }

  /** A business day later: a day, and two more when that is a Saturday. */
  lemma OneDayLater(t: int)
    requires !IsWeekend(t)
    ensures var next := if UtcDow(t + DAY) == 6 then t + 3 * DAY else t + DAY;
      !IsWeekend(next) && Clock(next) == Clock(t) + DAY
  {
    WeekPosition(t);
    WeekPosition(t + DAY);
    WeekPosition(t + 3 * DAY);
    var u := t + EPOCH;
    var w, r := u / WEEK, u % WEEK;
    assert u == w * WEEK + r;
    assert u + DAY == w * WEEK + (r + DAY);
    assert (u + DAY) / WEEK == w && (u + DAY) % WEEK == r + DAY;
    if r + DAY >= 5 * DAY {
      assert u + 3 * DAY == (w + 1) * WEEK + (r + DAY - 5 * DAY);
      assert (u + 3 * DAY) / WEEK == w + 1 && (u + 3 * DAY) % WEEK == r - 4 * DAY;
    }
  }

  lemma WeeksLater(t: int, k: nat)
    requires !IsWeekend(t)
    ensures !IsWeekend(t + k * WEEK) && Clock(t + k * WEEK) == Clock(t) + k * 5 * DAY
  {
    WeekPosition(t);
    WeekPosition(t + k * WEEK);
    var u := t + EPOCH;
    assert u == u / WEEK * WEEK + u % WEEK;
    assert u + k * WEEK == (u / WEEK + k) * WEEK + u % WEEK;
    assert (u + k * WEEK) / WEEK == u / WEEK + k && (u + k * WEEK) % WEEK == u % WEEK;
  }

  /** n business days after start: the weekday instant at which the clock reads n days more. */
  method AddBusinessDays(start: int, n: nat) returns (t: int)
    ensures t == At(Clock(start) + n * DAY)
  {
    hide At, Clock, IsWeekend;
    t := start;
    var dow := UtcDow(t);
    assert IsWeekend(t) <==> dow == 6 || dow == 0 by { WeekendIs(t); }
    if dow == 6 || dow == 0 {
      WeekendReadsMonday(t);
      t := t / DAY * DAY + (if dow == 6 then 2 else 1) * DAY;
    }
    assert !IsWeekend(t) && Clock(t) == Clock(start);
    WeeksLater(t, n / 5);
    t := t + n / 5 * 7 * DAY;
    for i := 0 to n % 5
      invariant !IsWeekend(t) && Clock(t) == Clock(start) + n / 5 * 5 * DAY + i * DAY
    {
      OneDayLater(t);
      t := t + DAY;
      if UtcDow(t) == 6 {
        t := t + 2 * DAY;
      }
    }
    assert n / 5 * 5 + n % 5 == n;
    ClockDetermines(t);
  }

  lemma WeekendIs(t: int)
    ensures IsWeekend(t) <==> UtcDow(t) == 6 || UtcDow(t) == 0
  {
  }

  /** Business milliseconds in [a, b). */
  function BusinessMs(a: int, b: int): int { if b <= a then 0 else Clock(b) - Clock(a) }

  /** Within one day the clock runs on a weekday and stands still on a weekend. */
  lemma WithinDay(k: int, x: int, y: int)
    requires k * DAY <= x <= y <= k * DAY + DAY
    ensures Clock(y) - Clock(x) == if IsWeekend(k * DAY) then 0 else y - x
  {
    hide Clock;
    WeekPosition(k * DAY);
    var w, d := (k + 3) / 7, (k + 3) % 7;
    assert k + 3 == w * 7 + d;
    assert k * DAY + EPOCH == w * WEEK + d * DAY;
    WeekQuotient(k * DAY + EPOCH, w, d * DAY);
    WithinWeek(w, d * DAY, x);
    WithinWeek(w, d * DAY, y);
  }

  lemma WithinWeek(w: int, r: int, x: int)
    requires 0 <= r <= 6 * DAY && w * WEEK + r <= x + EPOCH <= w * WEEK + r + DAY
    ensures Clock(x) == w * 5 * DAY + Min(x + EPOCH - w * WEEK, 5 * DAY)
  {
    var v := x + EPOCH;
    if v < (w + 1) * WEEK {
      WeekQuotient(v, w, v - w * WEEK);
    } else {
      WeekQuotient(v, w + 1, 0);
    }
  }

  /** The day-by-day sum is the clock's difference. */
  method BusinessMsBetween(a: int, b: int) returns (total: int)
    ensures total == BusinessMs(a, b)
  {
    if b <= a {
      return 0;
    }
    hide Clock, IsWeekend;
    total := 0;
    var day := a / DAY * DAY;
    ghost var k := a / DAY;
    while day < b
      invariant day == k * DAY && a - DAY < day
      invariant total == Clock(Max(a, Min(b, day))) - Clock(a)
      decreases b - day
    {
      var lo, hi := Max(a, day), Min(b, day + DAY);
      WithinDay(k, lo, hi);
      WeekendIs(day);
      var dow := UtcDow(day);
      if !(dow == 0 || dow == 6) {
        total := total + (hi - lo);
      }
      day := day + DAY;
      k := k + 1;
    }
  }

  /** Whole business days elapsed, rounded down. */
  function BusinessDays(a: int, b: int): int { BusinessMs(a, b) / DAY }

  // ----- what follows -------------------------------------------------------------------------

  /** Counting undoes adding. */
  lemma AddThenCount(s: int, n: nat)
    ensures BusinessMs(s, At(Clock(s) + n * DAY)) == n * DAY
  {
    hide Clock, At;
    var t := At(Clock(s) + n * DAY);
    ClockDetermines(Clock(s) + n * DAY);
    if t < s {
      ClockAdvances(t, s);
    }
  }

  /** Adding in two steps is adding at once. */
  lemma AddTwice(s: int, a: nat, b: nat)
    ensures At(Clock(At(Clock(s) + a * DAY)) + b * DAY) == At(Clock(s) + (a + b) * DAY)
  {
    hide Clock, At;
    ClockDetermines(Clock(s) + a * DAY);
    assert a * DAY + b * DAY == (a + b) * DAY;
  }

  /** Business time adds up over adjacent intervals. */
  lemma Additive(a: int, b: int, c: int)
    requires a <= b <= c
    ensures BusinessMs(a, c) == BusinessMs(a, b) + BusinessMs(b, c) && BusinessMs(a, b) >= 0
  {
    hide Clock;
    ClockAdvances(a, b);
  }

  // ----- the due pill -------------------------------------------------------------------------

  datatype DuePill = Due(days: int) | DueToday | Overdue(days: int)

  function Pill(dueAt: int, now: int): DuePill {
    if now < dueAt then
      if BusinessDays(now, dueAt) >= 1 then Due(BusinessDays(now, dueAt)) else DueToday
    else Overdue(BusinessDays(dueAt, now))
  }

  /** The order in which the pill may change. */
  predicate MovesTo(p: DuePill, q: DuePill) {
    match p
    case Due(days) => q.Due? ==> q.days <= days
    case DueToday => !q.Due?
    case Overdue(days) => q.Overdue? && q.days >= days
  }

  /** As time goes on the pill only moves from due, with fewer and fewer days, to due today to overdue,
      with more and more. */
  lemma PillMovesForward(dueAt: int, now: int, later: int)
    requires now <= later
    ensures MovesTo(Pill(dueAt, now), Pill(dueAt, later))
    ensures Pill(dueAt, now).Due? ==> Pill(dueAt, now).days >= 1
    ensures Pill(dueAt, now).Overdue? ==> Pill(dueAt, now).days >= 0
  {
    hide Clock;
    if later < dueAt {
      Additive(now, later, dueAt);
      Additive(later, dueAt, dueAt);
    } else if now >= dueAt {
      Additive(dueAt, now, later);
      Additive(now, later, later);
    }
  }

  /** A target of n business days shows n days left on the day it is set, and is overdue by whole days
      counted from the same instant. */
  lemma PillAtStart(s: int, n: nat)
    requires n >= 1
    ensures Pill(At(Clock(s) + n * DAY), s) == Due(n)
    ensures Pill(At(Clock(s) + n * DAY), At(Clock(s) + n * DAY)) == Overdue(0)
  {
    hide Clock, At;
    AddThenCount(s, n);
    assert n * DAY / DAY == n;
  }

  /** The weekday instants are in the order of their clock readings. */
  lemma AtInOrder(x: int, y: int)
    ensures At(x) < At(y) <==> x < y
  {
    hide Clock, At;
    ClockDetermines(x);
    ClockDetermines(y);
    if At(x) < At(y) {
      ClockAdvances(At(x), At(y));
    } else {
      ClockAdvances(At(y), At(x));
    }
  }

  /** On a weekday the pill shows k days overdue from k business days behind the due instant up to k + 1. */
  lemma OverdueIff(dueAt: int, now: int, k: int)
    requires dueAt <= now && !IsWeekend(now)
    ensures Pill(dueAt, now) == Overdue(k) <==> At(Clock(dueAt) + k * DAY) <= now < At(Clock(dueAt) + (k + 1) * DAY)
  {
    hide Clock, At;
    ClockDetermines(now);
    AtInOrder(Clock(now), Clock(dueAt) + (k + 1) * DAY);
    AtInOrder(Clock(now), Clock(dueAt) + k * DAY);
    ClockAdvances(dueAt, now);
    DaysIff(Clock(now) - Clock(dueAt), k);
  }

  lemma DaysIff(ms: int, k: int)
    ensures ms / DAY == k <==> k * DAY <= ms < (k + 1) * DAY
  {
  }

  /** Of a target on a weekday it shows k days left if k business days from now, but not k + 1, end by then, and due
      today if not even one does. */
  lemma DueIff(dueAt: int, now: int, k: int)
    requires now < dueAt && !IsWeekend(dueAt)
    ensures Pill(dueAt, now) == Due(k) <==> k >= 1 && At(Clock(now) + k * DAY) <= dueAt < At(Clock(now) + (k + 1) * DAY)
    ensures Pill(dueAt, now) == DueToday <==> dueAt < At(Clock(now) + DAY)
  {
    hide Clock, At;
    ClockDetermines(dueAt);
    AtInOrder(Clock(dueAt), Clock(now) + (k + 1) * DAY);
    AtInOrder(Clock(dueAt), Clock(now) + k * DAY);
    AtInOrder(Clock(dueAt), Clock(now) + DAY);
    ClockAdvances(now, dueAt);
    DaysIff(Clock(dueAt) - Clock(now), k);
    DaysIff(Clock(dueAt) - Clock(now), 0);
  }
}
