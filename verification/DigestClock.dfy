/**
 The digest's clock (packages/shared/src/email-digest.ts): from a local time to an instant across a
 change of the zone's offset, and the most recent send slot. Instants and local times are
 milliseconds; a local time is written as if it were UTC.
 */
module DigestClock {
  import opened Common

  const SECOND := 1000
  const HOUR := 3600000
  const DAY := 86400000

  /** A zone's offset at each instant. */
  type Zone = int -> int

  /** Offsets are whole seconds from 12 hours behind UTC to 14 hours ahead. */
  ghost predicate Real(z: Zone) {
    forall t :: -12 * HOUR <= z(t) <= 14 * HOUR && z(t) % SECOND == 0
  }

  /** The wall clock at an instant, to the second. */
  function WallClock(z: Zone, t: int): int {
    t - t % SECOND + z(t)
  }

  /** Within 14 hours of a local time the offset changes at most once, at a whole second. */
  ghost predicate ChangesNear(z: Zone, wall: int, change: int, before: int, after: int) {
    && change % SECOND == 0
    && forall t :: wall - 14 * HOUR <= t <= wall + 14 * HOUR ==> z(t) == if t < change then before else after
  }

  ghost predicate OneChangeNear(z: Zone, wall: int) {
    exists change, before, after :: ChangesNear(z, wall, change, before, after)
  }

  // ----- from a local time to an instant ------------------------------------------------------

  function Earlier(z: Zone, wall: int): int {
    wall - (WallClock(z, wall - 14 * HOUR) - (wall - 14 * HOUR))
  }

  function Later(z: Zone, wall: int): int {
    wall - (WallClock(z, wall + 14 * HOUR) - (wall + 14 * HOUR))
  }

  /** The instant at which the wall clock reads `wall`, tried with the offset before and the one after. */
  function InstantForWallClock(z: Zone, wall: int): int {
    var a, b := Earlier(z, wall), Later(z, wall);
    if WallClock(z, a) == wall || WallClock(z, b) == wall then
      if WallClock(z, a) == wall && WallClock(z, b) == wall then Min(a, b)
      else if WallClock(z, a) == wall then a
      else b
    else if WallClock(z, a) > wall || WallClock(z, b) > wall then
      if WallClock(z, a) > wall && WallClock(z, b) > wall then Min(a, b)
      else if WallClock(z, a) > wall then a
      else b
    else Max(a, b)
  }

  /** The candidates are the local time less an offset. */
  lemma Candidates(z: Zone, wall: int)
    requires Real(z) && wall % SECOND == 0
    ensures Earlier(z, wall) == wall - z(wall - 14 * HOUR) && Later(z, wall) == wall - z(wall + 14 * HOUR)
    ensures Earlier(z, wall) % SECOND == 0 && Later(z, wall) % SECOND == 0
    ensures wall - 14 * HOUR <= Earlier(z, wall) <= wall + 12 * HOUR
    ensures wall - 14 * HOUR <= Later(z, wall) <= wall + 12 * HOUR
  {
    assert z(wall - 14 * HOUR) % SECOND == 0 && z(wall + 14 * HOUR) % SECOND == 0;
  }

  /** Whatever the zone does, the instant is within its offsets of the local time. */
  lemma InstantBounds(z: Zone, wall: int)
    requires Real(z) && wall % SECOND == 0
    ensures wall - 14 * HOUR <= InstantForWallClock(z, wall) <= wall + 12 * HOUR
  {
    Candidates(z, wall);
  }

  /** An instant that reads `wall` is near it. */
  lemma ReadsNear(z: Zone, wall: int, t: int)
    requires Real(z) && wall % SECOND == 0 && WallClock(z, t) == wall
    ensures wall - 14 * HOUR <= t <= wall + 14 * HOUR && t - t % SECOND == wall - z(t)
  {
    assert -12 * HOUR <= z(t) <= 14 * HOUR;
  }

  /** Around one change: the instant reads the local time, and is the first to, if any instant does.
      A skipped local time is one the clock jumps over at the change; the instant is then as far behind
      the change as the local time is into the jump, so it is the change exactly for the first skipped
      moment. Either way the clock has reached the local time. */
  lemma AroundChange(z: Zone, wall: int, change: int, before: int, after: int)
    requires Real(z) && wall % SECOND == 0
    requires ChangesNear(z, wall, change, before, after)
    ensures var r := InstantForWallClock(z, wall);
      && WallClock(z, r) >= wall
      && (forall t :: WallClock(z, t) == wall ==> WallClock(z, r) == wall && r <= t)
      && (WallClock(z, r) != wall ==>
        && change + before <= wall < change + after
        && r == change + (wall - (change + before))
        && (r == change <==> wall == change + before))
  {
    Candidates(z, wall);
    var a, b := Earlier(z, wall), Later(z, wall);
    assert z(a) == if a < change then before else after;
    assert z(b) == if b < change then before else after;
    forall t | WallClock(z, t) == wall
      ensures WallClock(z, InstantForWallClock(z, wall)) == wall && InstantForWallClock(z, wall) <= t
    {
      ReadsNear(z, wall, t);
      assert z(t) == if t < change then before else after;
    }
  }

  /** The instant for a local time is the first one that reads it, when one does; when none does, the
      clock is past it there. */
  lemma InstantIsFirst(z: Zone, wall: int)
    requires Real(z) && wall % SECOND == 0 && OneChangeNear(z, wall)
    ensures var r := InstantForWallClock(z, wall);
      && WallClock(z, r) >= wall
      && forall t :: WallClock(z, t) == wall ==> WallClock(z, r) == wall && r <= t
  {
    var change, before, after :| ChangesNear(z, wall, change, before, after);
    AroundChange(z, wall, change, before, after);
  }

  // ----- the most recent slot -----------------------------------------------------------------

  datatype Mode = Daily | Weekly

  /** The local day of an instant, in days since 1970-01-01. */
  function LocalDay(z: Zone, t: int): int { WallClock(z, t) / DAY }

  /** 1970-01-01 was a Thursday. */
  function IsoWeekday(day: int): (w: int)
    ensures 1 <= w <= 7
  {
    (day + 3) % 7 + 1
  }

  /** Monday is 1 and Sunday 7, day after day: Monday the 1st of January 2024 is day 19723. */
  lemma WeekdaysInTurn(day: int)
    ensures IsoWeekday(day + 1) == (if IsoWeekday(day) == 7 then 1 else IsoWeekday(day) + 1) && IsoWeekday(19723) == 1
  {
  }

  function LocalTime(day: int, hour: int): int { day * DAY + hour * HOUR }

  function SlotOf(z: Zone, day: int, hour: int): int { InstantForWallClock(z, LocalTime(day, hour)) }

  predicate Scheduled(mode: Mode, weekday: int, day: int) {
    mode == Weekly ==> IsoWeekday(day) == weekday
  }

  /** A zone two hours ahead of UTC from 01:00 of the day 0 on, as Antarctica/Troll in spring. */
  function TwoHoursForward(t: int): int { if t < HOUR then 0 else 2 * HOUR }

  /** The documented promise that a skipped time resolves to the change itself fails for a send hour behind
      the first skipped moment: 02:00, of the skipped 01:00 to 03:00, resolves to an hour past the change,
      when the clock reads 04:00. */
  lemma SkippedTimeOvershoots()
    ensures Real(TwoHoursForward) && OneChangeNear(TwoHoursForward, LocalTime(0, 2))
    ensures forall t :: if t < HOUR then WallClock(TwoHoursForward, t) < LocalTime(0, 1) else WallClock(TwoHoursForward, t) >= LocalTime(0, 3)
    ensures SlotOf(TwoHoursForward, 0, 2) == 2 * HOUR
    ensures WallClock(TwoHoursForward, SlotOf(TwoHoursForward, 0, 2)) == LocalTime(0, 4)
  {
    assert ChangesNear(TwoHoursForward, LocalTime(0, 2), HOUR, 0, 2 * HOUR);
    forall t ensures if t < HOUR then WallClock(TwoHoursForward, t) < HOUR else WallClock(TwoHoursForward, t) >= 3 * HOUR {
      assert HOUR == SECOND * 3600;
    }
  }

  lemma WholeSeconds(day: int, hour: int)
    ensures LocalTime(day, hour) % SECOND == 0
  {
    assert LocalTime(day, hour) == SECOND * (day * 86400 + hour * 3600);
  }

  /** A slot three days back has passed. */
  lemma OldSlotsHavePassed(z: Zone, now: int, day: int, hour: int)
    requires Real(z) && 0 <= hour <= 23 && day <= LocalDay(z, now) - 3
    ensures SlotOf(z, day, hour) <= now
  {
    WholeSeconds(day, hour);
    InstantBounds(z, LocalTime(day, hour));
    assert -12 * HOUR <= z(now) <= 14 * HOUR;
    assert LocalDay(z, now) * DAY <= WallClock(z, now);
    assert day * DAY <= (LocalDay(z, now) - 3) * DAY;
  }

  /** Days that agree modulo seven fall on the same weekday. */
  lemma SameWeekday(day: int, other: int, weekday: int)
    requires 1 <= weekday <= 7 && IsoWeekday(day) == weekday
    ensures IsoWeekday(other) == weekday <==> (other - day) % 7 == 0
  {
  }

  /** The slot of the last scheduled day, up to today, whose slot has passed. */
  ghost predicate IsCurrent(z: Zone, now: int, mode: Mode, hour: int, weekday: int, slot: int, day: int) {
    && slot == SlotOf(z, day, hour) && slot <= now && Scheduled(mode, weekday, day) && day <= LocalDay(z, now)
    && forall d :: day < d <= LocalDay(z, now) && Scheduled(mode, weekday, d) ==> SlotOf(z, d, hour) > now
  }

  /** There is only one. */
  lemma OneCurrent(z: Zone, now: int, mode: Mode, hour: int, weekday: int, slot: int, day: int, other: int, otherDay: int)
    requires IsCurrent(z, now, mode, hour, weekday, slot, day) && IsCurrent(z, now, mode, hour, weekday, other, otherDay)
    ensures slot == other && day == otherDay
  {
    hide SlotOf, LocalDay, Scheduled;
    assert SlotOf(z, day, hour) <= now && SlotOf(z, otherDay, hour) <= now;
  }

  /** The most recent slot at or before now, with its local day. The code's guard against going back more
      than 15 days is never taken: the loop's invariant bounds how far it goes back. */
  method DigestSlot(z: Zone, now: int, mode: Mode, hour: int, weekday: int) returns (slot: int, day: int)
    requires Real(z) && 0 <= hour <= 23 && 1 <= weekday <= 7
    ensures IsCurrent(z, now, mode, hour, weekday, slot, day)
  {
    hide SlotOf, InstantForWallClock, WallClock, Real, Scheduled, IsoWeekday;
    var today := WallClock(z, now) / DAY;
    var isoToday := IsoWeekday(today);
    var back := if mode == Weekly then (isoToday - weekday + 7) % 7 else 0;
    var step := if mode == Weekly then 7 else 1;
    StartIsScheduled(mode, weekday, today, back);
    while true
      invariant 0 <= back <= 15 && (mode == Weekly ==> back <= 13) && (mode == Daily ==> back <= 3)
      invariant Scheduled(mode, weekday, today - back)
      invariant forall d :: today - back < d <= today && Scheduled(mode, weekday, d) ==> SlotOf(z, d, hour) > now
      decreases 15 - back
    {
      day := today - back;
      slot := SlotOf(z, day, hour);
      if slot <= now {
        return;
      }
      assert back < 3 by {
        if back >= 3 {
          OldSlotsHavePassed(z, now, day, hour);
        }
      }
      NothingBetween(mode, weekday, day, step);
      back := back + step;
    }
  }

  /** The day the search starts from is scheduled, and none behind it up to today is. */
  lemma StartIsScheduled(mode: Mode, weekday: int, today: int, back: int)
    requires 1 <= weekday <= 7 && back == if mode == Weekly then (IsoWeekday(today) - weekday + 7) % 7 else 0
    ensures Scheduled(mode, weekday, today - back) && 0 <= back <= 6
    ensures forall d :: today - back < d <= today ==> !Scheduled(mode, weekday, d)
  {
    if mode == Weekly {
      BackIs(IsoWeekday(today), weekday);
      WeekdayBefore(today, back);
      hide IsoWeekday;
      forall d | today - back < d <= today ensures !Scheduled(mode, weekday, d) {
        WeekdayBefore(today, today - d);
        assert today - (today - d) == d;
      }
    }
  }

  lemma BackIs(w: int, weekday: int)
    requires 1 <= w <= 7 && 1 <= weekday <= 7
    ensures (w - weekday + 7) % 7 == if w >= weekday then w - weekday else w - weekday + 7
  {
  }

  lemma WeekdayBefore(today: int, n: int)
    requires 0 <= n <= 6
    ensures IsoWeekday(today - n) == if IsoWeekday(today) - n >= 1 then IsoWeekday(today) - n else IsoWeekday(today) - n + 7
  {
  }

  /** Between two scheduled days a step apart no day is scheduled, and the earlier one is. */
  lemma NothingBetween(mode: Mode, weekday: int, day: int, step: int)
    requires step == (if mode == Weekly then 7 else 1) && 1 <= weekday <= 7 && Scheduled(mode, weekday, day)
    ensures Scheduled(mode, weekday, day - step)
    ensures forall d :: day - step < d < day ==> !Scheduled(mode, weekday, d)
  {
    if mode == Weekly {
      SameWeekday(day, day - 7, weekday);
      forall d | day - step < d < day ensures !Scheduled(mode, weekday, d) {
        SameWeekday(day, d, weekday);
      }
    }
  }

  /** The local date never steps back. */
  ghost predicate DateAdvances(z: Zone) {
    forall t, u :: t <= u ==> LocalDay(z, t) <= LocalDay(z, u)
  }

  /** Then no slot of a later local day has passed, so the slot found is that of the last scheduled day
      whose slot has passed. */
  lemma LaterSlotsAreAhead(z: Zone, now: int, day: int, hour: int)
    requires Real(z) && 0 <= hour <= 23 && day > LocalDay(z, now)
    requires OneChangeNear(z, LocalTime(day, hour)) && DateAdvances(z)
    ensures SlotOf(z, day, hour) > now
  {
    WholeSeconds(day, hour);
    InstantIsFirst(z, LocalTime(day, hour));
    var slot := SlotOf(z, day, hour);
    assert LocalDay(z, slot) >= day by {
      assert WallClock(z, slot) >= day * DAY;
    }
    assert slot <= now ==> LocalDay(z, slot) <= LocalDay(z, now);
  }

  /** A zone that goes back a day at the instant 0. */
  function Backwards(t: int): int { if t < 0 then 12 * HOUR else -12 * HOUR }

  /** Without that assumption a slot of a later local day may have passed. */
  lemma DateSteppingBackMatters()
    ensures Real(Backwards) && OneChangeNear(Backwards, LocalTime(0, 11))
    ensures LocalDay(Backwards, 0) == -1 && SlotOf(Backwards, 0, 11) == -HOUR
  {
    assert ChangesNear(Backwards, LocalTime(0, 11), 0, 12 * HOUR, -12 * HOUR);
  }

  // ----- the due rule -------------------------------------------------------------------------

  datatype Due = FirstSight | DueNow | NotDue

  /** Whether a digest goes out, from the last run's stamp. */
  function DigestDue(lastRunAt: Option<int>, slot: int): (r: Due)
    ensures r == DueNow <==> lastRunAt.Some? && lastRunAt.value < slot
    ensures r == FirstSight <==> lastRunAt.None?
  {
    if lastRunAt.None? then FirstSight else if lastRunAt.value < slot then DueNow else NotDue
  }
}
