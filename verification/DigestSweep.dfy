/**
 The digest sweep for one subscriber (`runDigestSweep` of packages/worker/src/notify/digest.ts): when a digest
 goes out and what is stamped, over any run of sweeps, changed choices and changed settings.
 */
module DigestSweep {
  import opened Common
  import opened DigestClock

  /** A stamp newer than this is skipped without computing the slot. */
  const SLACK := 22 * HOUR

  /** What happens to a due digest: no transport, nothing left to send, throttled, failed, sent. */
  datatype Sending = NoTransport | NothingKept | Throttled | Fails | Succeeds

  /** The stamp of the last slot closed, the failed attempts since, and every slot a digest went out for. */
  datatype State = State(lastRunAt: Option<int>, failures: nat, sent: seq<int>)

  /** The sweep looks at the subscriber at all. */
  predicate Looks(lastRunAt: Option<int>, now: int) {
    lastRunAt.None? || lastRunAt.value < now - SLACK
  }

  predicate Attempts(s: State, now: int, slot: int) {
    Looks(s.lastRunAt, now) && DigestDue(s.lastRunAt, slot) == DueNow
  }

  function Stamped(s: State, slot: int): State { s.(lastRunAt := Some(slot), failures := 0) }

  /** One sweep. */
  function Swept(s: State, now: int, slot: int, sending: Sending, maxAttempts: nat): State {
    if !Looks(s.lastRunAt, now) then s
    else
      match DigestDue(s.lastRunAt, slot)
      case NotDue => s
      case FirstSight => Stamped(s, slot)
      case DueNow =>
        match sending
        case NoTransport => Stamped(s, slot)
        case NothingKept => Stamped(s, slot)
        case Throttled => s
        case Fails => if s.failures + 1 >= maxAttempts then Stamped(s, slot) else s.(failures := s.failures + 1)
        case Succeeds => Stamped(s.(sent := s.sent + [slot]), slot)
  }

  /** A sweep with a slot newer than the stamp, 22 hours behind it, sends exactly when sending succeeds, and closes the
      slot unless sending is throttled or fails with attempts left; without a stamp it closes the slot and sends nothing. */
  lemma SweepSays(s: State, now: int, slot: int, sending: Sending, maxAttempts: nat)
    ensures var r := Swept(s, now, slot, sending, maxAttempts);
      var due := s.lastRunAt.Some? && s.lastRunAt.value < now - 22 * HOUR && s.lastRunAt.value < slot;
      && r.sent == (if due && sending == Succeeds then s.sent + [slot] else s.sent)
      && (due ==>
        if sending == Throttled then r == s
        else if sending == Fails && s.failures + 1 < maxAttempts then r == s.(failures := s.failures + 1)
        else r.lastRunAt == Some(slot) && r.failures == 0)
      && (s.lastRunAt.None? ==> r.lastRunAt == Some(slot) && r.failures == 0)
      && (s.lastRunAt.Some? && !due ==> r == s)
  {
  }

  /** A sweep during which the subscriber changes their choice: it goes by what it read, and the stamp it
      would write loses to the reset. */
  function SweptLate(s: State, now: int, slot: int, sending: Sending, maxAttempts: nat): State {
    if !Attempts(s, now, slot) then State(None, 0, s.sent)
    else State(None, if sending == Fails && s.failures + 1 < maxAttempts then 1 else 0,
      if sending == Succeeds then s.sent + [slot] else s.sent)
  }

  /** The sweep writes a stamp. */
  predicate Stamps(s: State, now: int, slot: int, sending: Sending, maxAttempts: nat) {
    Looks(s.lastRunAt, now) &&
    match DigestDue(s.lastRunAt, slot)
    case NotDue => false
    case FirstSight => true
    case DueNow => Closes(sending) || (sending == Fails && s.failures + 1 >= maxAttempts)
  }

  /** What closes a due slot at once. */
  predicate Closes(sending: Sending) { sending == NoTransport || sending == NothingKept || sending == Succeeds }

  /** A sweep during which the subscriber changes their choice and changes it back: the stamp it writes finds
      the choice it read, and lands behind the reset. */
  function SweptBack(s: State, now: int, slot: int, sending: Sending, maxAttempts: nat): State {
    if Stamps(s, now, slot, sending, maxAttempts) then Swept(s, now, slot, sending, maxAttempts)
    else State(None, if Attempts(s, now, slot) && sending == Fails then 1 else 0, s.sent)
  }

  /** The subscriber's row, as the sweep updates it. */
  class Subscriber {
    var lastRunAt: Option<int>
    var failures: nat

    method Sweep(now: int, slot: int, sending: Sending, maxAttempts: nat) returns (sent: bool)
      modifies this
      ensures forall log :: (
        State(lastRunAt, failures, if sent then log + [slot] else log)
        == Swept(State(old(lastRunAt), old(failures), log), now, slot, sending, maxAttempts))
    {
      sent := false;
      if lastRunAt.Some? && lastRunAt.value >= now - SLACK {
        return;
      }
      var due := DigestDue(lastRunAt, slot);
      if due == NotDue {
        return;
      }
      if due == FirstSight {
        Stamp(slot);
        return;
      }
      if sending == NoTransport || sending == NothingKept {
        Stamp(slot);
        return;
      }
      if sending == Throttled {
        return;
      }
      if sending == Fails {
        if failures + 1 >= maxAttempts {
          Stamp(slot);
        } else {
          failures := failures + 1;
        }
        return;
      }
      Stamp(slot);
      sent := true;
    }

    method Stamp(slot: int)
      modifies this
      ensures lastRunAt == Some(slot) && failures == 0
    {
      lastRunAt, failures := Some(slot), 0;
    }
  }

  // ----- runs ---------------------------------------------------------------------------------

  /** The instants at which digests are scheduled under a choice and the settings. */
  type Schedule = int -> bool

  /** `Choose` is a changed choice with its new schedule, `Late` a sweep that one overlaps, and `Back` a sweep
      during which the choice is changed and changed back. */
  datatype Event =
    | Sweep(now: int, slot: int, sending: Sending)
    | Choose(schedule: Schedule)
    | Late(now: int, slot: int, sending: Sending, schedule: Schedule)
    | Back(now: int, slot: int, sending: Sending)

  function Apply(s: State, e: Event, maxAttempts: nat): State {
    match e
    case Sweep(now, slot, sending) => Swept(s, now, slot, sending, maxAttempts)
    case Choose(_) => State(None, 0, s.sent)
    case Late(now, slot, sending, _) => SweptLate(s, now, slot, sending, maxAttempts)
    case Back(now, slot, sending) => SweptBack(s, now, slot, sending, maxAttempts)
  }

  function Run(s: State, events: seq<Event>, maxAttempts: nat): State
    decreases |events|
  {
    if events == [] then s else Run(Apply(s, events[0], maxAttempts), events[1..], maxAttempts)
  }

  predicate Increasing(slots: seq<int>) {
    forall i, j :: 0 <= i < j < |slots| ==> slots[i] < slots[j]
  }

  predicate AllBelow(slots: seq<int>, bound: int) {
    forall i :: 0 <= i < |slots| ==> slots[i] < bound
  }

  lemma OneMoreSlot(slots: seq<int>, slot: int)
    requires Increasing(slots) && AllBelow(slots, slot)
    ensures Increasing(slots + [slot]) && AllBelow(slots + [slot], slot + 1)
  {
  }

  // ----- one choice ---------------------------------------------------------------------------

  /** Every slot sent is at most the stamp. */
  ghost predicate Closed(s: State) {
    Increasing(s.sent) && if s.lastRunAt.Some? then AllBelow(s.sent, s.lastRunAt.value + 1) else s.sent == []
  }

  /** Whatever slots the sweeps compute, in whatever order and whatever the settings did meanwhile: no
      slot gets two digests while the choice stands. */
  lemma {:induction false} OneDigestASlot(s: State, events: seq<Event>, maxAttempts: nat)
    requires Closed(s) && forall i :: 0 <= i < |events| ==> events[i].Sweep?
    ensures Closed(Run(s, events, maxAttempts))
    decreases |events|
  {
    if events != [] {
      var e := events[0];
      if Attempts(s, e.now, e.slot) {
        OneMoreSlot(s.sent, e.slot);
      }
      OneDigestASlot(Apply(s, e, maxAttempts), events[1..], maxAttempts);
    }
  }

  // ----- an outage ----------------------------------------------------------------------------

  /** The sweeps of a stretch of time in which the most recent slot stays the same. */
  ghost predicate SameSlot(events: seq<Event>, slot: int) {
    forall i :: 0 <= i < |events| ==> events[i].Sweep? && events[i].slot == slot
  }

  lemma {:induction false} ClosedSendsNothing(s: State, events: seq<Event>, slot: int, maxAttempts: nat)
    requires s.lastRunAt == Some(slot) && SameSlot(events, slot)
    ensures Run(s, events, maxAttempts) == s
    decreases |events|
  {
    if events != [] {
      ClosedSendsNothing(s, events[1..], slot, maxAttempts);
    }
  }

  /** However many slots lie between the stamp and the most recent one, the sweeps up to the next slot send
      one digest in all when the first of them can send. */
  lemma OutageSendsOne(s: State, events: seq<Event>, slot: int, maxAttempts: nat)
    requires s.lastRunAt.Some? && s.lastRunAt.value < slot && SameSlot(events, slot) && events != []
    requires s.lastRunAt.value < events[0].now - SLACK && events[0].sending == Succeeds
    ensures Run(s, events, maxAttempts) == State(Some(slot), 0, s.sent + [slot])
  {
    ClosedSendsNothing(Apply(s, events[0], maxAttempts), events[1..], slot, maxAttempts);
  }

  /** Whatever happens to the attempts, the sweeps of such a stretch send at most one. */
  lemma {:induction false} FailuresSendAtMostOne(s: State, events: seq<Event>, slot: int, maxAttempts: nat)
    requires SameSlot(events, slot)
    ensures var r := Run(s, events, maxAttempts); r.sent == s.sent || r.sent == s.sent + [slot]
    decreases |events|
  {
    if events != [] {
      var after := Apply(s, events[0], maxAttempts);
      if after.lastRunAt == Some(slot) {
        ClosedSendsNothing(after, events[1..], slot, maxAttempts);
      } else {
        FailuresSendAtMostOne(after, events[1..], slot, maxAttempts);
      }
    }
  }

  /** The failed attempts among them: sweeps that look and fail. Throttled ones do not count. */
  function FailedAttempts(lastRunAt: Option<int>, events: seq<Event>): nat
    requires forall i :: 0 <= i < |events| ==> events[i].Sweep?
    decreases |events|
  {
    if events == [] then 0
    else
      (if Looks(lastRunAt, events[0].now) && events[0].sending == Fails then 1 else 0) + FailedAttempts(lastRunAt, events[1..])
  }

  /** One of them closes the slot by itself. */
  ghost predicate SomeCloses(lastRunAt: Option<int>, events: seq<Event>) {
    exists i :: 0 <= i < |events| && events[i].Sweep? && Looks(lastRunAt, events[i].now) && Closes(events[i].sending)
  }

  /** A due slot is closed if and only if some attempt closes it by itself or the failed ones use up the
      attempts allowed; otherwise only the failures are counted. */
  lemma {:induction false} ClosedIff(s: State, events: seq<Event>, slot: int, maxAttempts: nat)
    requires s.lastRunAt.Some? && s.lastRunAt.value < slot && SameSlot(events, slot)
    ensures var r, n := Run(s, events, maxAttempts), FailedAttempts(s.lastRunAt, events);
      && (r.lastRunAt == Some(slot) <==> SomeCloses(s.lastRunAt, events) || (n > 0 && s.failures + n >= maxAttempts))
      && (r.lastRunAt != Some(slot) ==> r == s.(failures := s.failures + n))
    decreases |events|
  {
    if events != [] {
      var e, rest := events[0], events[1..];
      var after := Apply(s, e, maxAttempts);
      CloseFirst(s.lastRunAt, events);
      if after.lastRunAt == Some(slot) {
        ClosedSendsNothing(after, rest, slot, maxAttempts);
      } else {
        ClosedIff(after, rest, slot, maxAttempts);
      }
    }
  }

  lemma CloseFirst(lastRunAt: Option<int>, events: seq<Event>)
    requires events != [] && events[0].Sweep?
    ensures SomeCloses(lastRunAt, events) <==>
      (Looks(lastRunAt, events[0].now) && Closes(events[0].sending)) || SomeCloses(lastRunAt, events[1..])
  {
    var rest := events[1..];
    if i :| 0 <= i < |rest| && rest[i].Sweep? && Looks(lastRunAt, rest[i].now) && Closes(rest[i].sending) {
      assert events[i + 1] == rest[i];
    }
    if i :| 0 <= i < |events| && events[i].Sweep? && Looks(lastRunAt, events[i].now) && Closes(events[i].sending) {
      assert i > 0 ==> rest[i - 1] == events[i];
    }
  }

  // ----- changed choices ----------------------------------------------------------------------

  /** The schedule's last instant up to now. */
  ghost predicate MostRecent(schedule: Schedule, now: int, slot: int) {
    schedule(slot) && slot <= now && forall t :: schedule(t) && t <= now ==> t <= slot
  }

  /** The clock never runs backwards, and every sweep has its schedule's most recent slot. */
  ghost predicate Timely(events: seq<Event>, schedule: Schedule, now: int)
    decreases |events|
  {
    events == [] ||
    match events[0]
    case Sweep(at, slot, _) => now <= at && MostRecent(schedule, at, slot) && Timely(events[1..], schedule, at)
    case Choose(next) => Timely(events[1..], next, now)
    case Late(at, slot, _, next) => now <= at && MostRecent(schedule, at, slot) && Timely(events[1..], next, at)
    case Back(at, slot, _) => now <= at && MostRecent(schedule, at, slot) && Timely(events[1..], schedule, at)
  }

  /** No slot sent is after now, and none is scheduled after the stamp at or before one that was sent. */
  ghost predicate Passed(s: State, schedule: Schedule, now: int) {
    && Increasing(s.sent) && AllBelow(s.sent, now + 1)
    && (s.lastRunAt.Some? ==> forall t :: schedule(t) && t > s.lastRunAt.value ==> AllBelow(s.sent, t))
  }

  lemma SweepPasses(s: State, schedule: Schedule, now: int, at: int, slot: int, sending: Sending, maxAttempts: nat)
    requires Passed(s, schedule, now) && now <= at && MostRecent(schedule, at, slot)
    ensures Passed(Swept(s, at, slot, sending, maxAttempts), schedule, at)
    ensures var late := SweptLate(s, at, slot, sending, maxAttempts); Increasing(late.sent) && AllBelow(late.sent, at + 1)
    ensures Passed(SweptBack(s, at, slot, sending, maxAttempts), schedule, at)
  {
    if Attempts(s, at, slot) {
      OneMoreSlot(s.sent, slot);
    }
    assert AllBelow(s.sent, at + 1);
    forall t | schedule(t) && t > slot ensures AllBelow(s.sent, t) && AllBelow(s.sent + [slot], t) {
      assert t > at;
    }
  }

  /** Over any run of sweeps and changed choices, each sweep with the most recent slot: the slots that get a
      digest strictly increase, so no slot gets two. */
  lemma {:induction false} OneDigestASlotEver(s: State, events: seq<Event>, schedule: Schedule, now: int, maxAttempts: nat)
    requires Passed(s, schedule, now) && Timely(events, schedule, now)
    ensures Increasing(Run(s, events, maxAttempts).sent)
    decreases |events|
  {
    hide Swept, SweptLate, SweptBack, MostRecent, AllBelow, Increasing;
    if events != [] {
      var e, rest := events[0], events[1..];
      var after := Apply(s, e, maxAttempts);
      match e
      case Sweep(at, slot, sending) =>
        SweepPasses(s, schedule, now, at, slot, sending, maxAttempts);
        OneDigestASlotEver(after, rest, schedule, at, maxAttempts);
      case Choose(next) =>
        OneDigestASlotEver(after, rest, next, now, maxAttempts);
      case Late(at, slot, sending, next) =>
        SweepPasses(s, schedule, now, at, slot, sending, maxAttempts);
        assert after.lastRunAt.None? by { LateResets(s, at, slot, sending, maxAttempts); }
        OneDigestASlotEver(after, rest, next, at, maxAttempts);
      case Back(at, slot, sending) =>
        SweepPasses(s, schedule, now, at, slot, sending, maxAttempts);
        OneDigestASlotEver(after, rest, schedule, at, maxAttempts);
    }
  }

  /** Without any assumption on the slots: no sweep can send a slot out of order if and only if the stamp is
      not before the last slot sent. */
  lemma InOrderIff(s: State, maxAttempts: nat)
    requires Increasing(s.sent) && s.sent != []
    ensures var last := s.sent[|s.sent| - 1];
      (forall now, slot :: Increasing(Swept(s, now, slot, Succeeds, maxAttempts).sent)) <==>
      s.lastRunAt.None? || s.lastRunAt.value >= last
  {
    var last := s.sent[|s.sent| - 1];
    if s.lastRunAt.None? || s.lastRunAt.value >= last {
      forall now, slot ensures Increasing(Swept(s, now, slot, Succeeds, maxAttempts).sent) {
        if Attempts(s, now, slot) {
          assert AllBelow(s.sent, slot);
          OneMoreSlot(s.sent, slot);
        }
      }
    } else {
      var now := s.lastRunAt.value + SLACK + 1;
      var sent := Swept(s, now, last, Succeeds, maxAttempts).sent;
      assert sent == s.sent + [last];
      assert sent[|s.sent| - 1] == sent[|s.sent|];
    }
  }

  /** The same behind a reset, by the slot stamped at first sight: slots stay in order whatever the settings
      do if and only if that slot is not before the last one sent. */
  lemma InOrderAfterReset(sent: seq<int>, at: int, first: int, sending: Sending, maxAttempts: nat)
    requires Increasing(sent) && sent != []
    ensures var s := Swept(State(None, 0, sent), at, first, sending, maxAttempts);
      (forall now, slot :: Increasing(Swept(s, now, slot, Succeeds, maxAttempts).sent)) <==> first >= sent[|sent| - 1]
  {
    var s := Swept(State(None, 0, sent), at, first, sending, maxAttempts);
    assert s == State(Some(first), 0, sent);
    InOrderIff(s, maxAttempts);
  }

  /** A run that does send one slot twice, in UTC at midnight: the daily digest of Saturday the 3rd of January
      1970, a change to weekly digests on Fridays, the stamp of Friday at first sight, and, once the weekday is
      moved to Saturday, a weekly digest for the same Saturday. Each slot is the digest clock's at that time. */
  lemma SettingsMaySendTwice(fridays: Schedule)
    ensures IsCurrent(Utc, 48 * HOUR, Daily, 0, 5, 48 * HOUR, 2)
    ensures IsCurrent(Utc, 49 * HOUR, Weekly, 0, 5, 24 * HOUR, 1)
    ensures IsCurrent(Utc, 72 * HOUR, Weekly, 0, 6, 48 * HOUR, 2)
    ensures var events := [
        Sweep(48 * HOUR, 48 * HOUR, Succeeds), Choose(fridays),
        Sweep(49 * HOUR, 24 * HOUR, Succeeds), Sweep(72 * HOUR, 48 * HOUR, Succeeds)];
      Run(State(Some(0), 0, []), events, 5).sent == [48 * HOUR, 48 * HOUR]
  {
    SaturdayAndFriday();
    var a, b := Sweep(48 * HOUR, 48 * HOUR, Succeeds), Choose(fridays);
    var c, d := Sweep(49 * HOUR, 24 * HOUR, Succeeds), Sweep(72 * HOUR, 48 * HOUR, Succeeds);
    var s := State(Some(0), 0, []);
    hide IsCurrent;
    assert [a, b, c, d][1..] == [b, c, d] && [b, c, d][1..] == [c, d] && [c, d][1..] == [d] && [d][1..] == [];
    var s1 := Apply(s, a, 5);
    assert s1 == State(Some(48 * HOUR), 0, [48 * HOUR]);
    var s3 := Apply(Apply(s1, b, 5), c, 5);
    assert s3 == State(Some(24 * HOUR), 0, [48 * HOUR]);
    assert Run(s3, [d], 5) == Run(Apply(s3, d, 5), [], 5) == Apply(s3, d, 5);
    assert Run(s1, [b, c, d], 5) == Run(Apply(s1, b, 5), [c, d], 5) == Run(s3, [d], 5);
  }

  /** Universal time. */
  function Utc(t: int): int { 0 }

  lemma UtcInstant(wall: int)
    requires wall % SECOND == 0
    ensures InstantForWallClock(Utc, wall) == wall
  {
    assert Earlier(Utc, wall) == wall == Later(Utc, wall) by { hide InstantForWallClock; Candidates(Utc, wall); }
    assert WallClock(Utc, wall) == wall;
    hide Earlier, Later, WallClock;
  }

  lemma UtcSlot(day: int, hour: int)
    requires 0 <= hour <= 23
    ensures SlotOf(Utc, day, hour) == LocalTime(day, hour)
  {
    hide InstantForWallClock;
    WholeSeconds(day, hour);
    UtcInstant(LocalTime(day, hour));
  }

  lemma SaturdayAndFriday()
    ensures IsCurrent(Utc, 48 * HOUR, Daily, 0, 5, 48 * HOUR, 2)
    ensures IsCurrent(Utc, 49 * HOUR, Weekly, 0, 5, 24 * HOUR, 1)
    ensures IsCurrent(Utc, 72 * HOUR, Weekly, 0, 6, 48 * HOUR, 2)
  {
    hide SlotOf;
    UtcSlot(1, 0);
    UtcSlot(2, 0);
  }

  lemma LateResets(s: State, now: int, slot: int, sending: Sending, maxAttempts: nat)
    ensures SweptLate(s, now, slot, sending, maxAttempts).lastRunAt.None?
  {
  }

  // ----- the slots of a zone ------------------------------------------------------------------

  /** Offsets stay within a band. */
  ghost predicate Band(z: Zone, low: int, width: int) {
    forall t :: low <= z(t) <= low + width
  }

  /** Slots of different days are at least a day less the band apart: 23 hours with summer time. */
  lemma SlotsApart(z: Zone, low: int, width: int, day: int, later: int, hour: int)
    requires Real(z) && Band(z, low, width) && day < later && 0 <= hour <= 23
    ensures SlotOf(z, later, hour) - SlotOf(z, day, hour) >= (later - day) * DAY - width
  {
    WholeSeconds(day, hour);
    WholeSeconds(later, hour);
    Candidates(z, LocalTime(day, hour));
    Candidates(z, LocalTime(later, hour));
  }

  ghost predicate InSchedule(z: Zone, mode: Mode, hour: int, weekday: int, t: int) {
    exists day :: Scheduled(mode, weekday, day) && t == SlotOf(z, day, hour)
  }

  /** The slot a sweep computes is the most recent one: of what the digest's clock says of its result, and a
      zone whose date never steps back. */
  lemma SlotIsMostRecent(z: Zone, low: int, width: int, schedule: Schedule,
      now: int, mode: Mode, hour: int, weekday: int, slot: int, day: int)
    requires Real(z) && Band(z, low, width) && width <= DAY && DateAdvances(z) && 0 <= hour <= 23
    requires forall d :: OneChangeNear(z, LocalTime(d, hour))
    requires forall t :: schedule(t) <==> InSchedule(z, mode, hour, weekday, t)
    requires IsCurrent(z, now, mode, hour, weekday, slot, day)
    ensures MostRecent(schedule, now, slot)
  {
    hide SlotOf, OneChangeNear, DateAdvances, Real, Band, LocalDay;
    forall t | schedule(t) && t <= now ensures t <= slot {
      var d :| Scheduled(mode, weekday, d) && t == SlotOf(z, d, hour);
      if d > day {
        if d > LocalDay(z, now) {
          LaterSlotsAreAhead(z, now, d, hour);
        }
      } else if d < day {
        SlotsApart(z, low, width, d, day, hour);
        assert (day - d) * DAY >= DAY;
      }
    }
  }

  // ----- the shortcut -------------------------------------------------------------------------

  /** The sweep passes over a subscriber who is due exactly from the slot until the stamp is 22 hours old. */
  lemma SkippedWhile(stamp: int, slot: int, now: int)
    requires slot <= now
    ensures DigestDue(Some(stamp), slot) == DueNow && !Looks(Some(stamp), now) <==> stamp < slot && now <= stamp + SLACK
  {
  }

  /** So the shortcut never does if and only if the stamp is not before the slot, or more than 22 hours before
      it. This is for any stamp: of another hour, weekday or zone, too. */
  lemma SlackSafeIff(stamp: int, slot: int)
    ensures (forall now :: slot <= now && !Looks(Some(stamp), now) ==> DigestDue(Some(stamp), slot) == NotDue) <==>
      stamp >= slot || slot - stamp > SLACK
  {
    if slot - stamp <= SLACK {
      assert !Looks(Some(stamp), slot);
    }
  }

  /** While the hour and the zone stay as they are, that holds where offsets vary by less than two hours. */
  lemma SlackIsSafe(z: Zone, low: int, width: int, now: int, stamped: int, day: int, hour: int)
    requires Real(z) && Band(z, low, width) && width < 2 * HOUR && 0 <= hour <= 23
    requires SlotOf(z, day, hour) <= now && !Looks(Some(SlotOf(z, stamped, hour)), now)
    ensures DigestDue(Some(SlotOf(z, stamped, hour)), SlotOf(z, day, hour)) == NotDue
  {
    hide SlotOf, Real, Band, Looks;
    SlackSafeIff(SlotOf(z, stamped, hour), SlotOf(z, day, hour));
    if stamped < day {
      SlotsApart(z, low, width, stamped, day, hour);
    } else if day < stamped {
      SlotsApart(z, low, width, day, stamped, hour);
    }
  }

  /** It fails when the send hour is moved: stamped at 08:00 in UTC and moved to 10:00, a subscriber is due from
      10:00 on, and still passed over at 05:00 the next day. */
  lemma MovedHourSkipsDue()
    ensures var stamp, now := SlotOf(Utc, 0, 8), 29 * HOUR;
      && IsCurrent(Utc, 9 * HOUR, Daily, 8, 1, stamp, 0)
      && IsCurrent(Utc, now, Daily, 10, 1, SlotOf(Utc, 0, 10), 0)
      && DigestDue(Some(stamp), SlotOf(Utc, 0, 10)) == DueNow && !Looks(Some(stamp), now)
  {
    hide SlotOf;
    UtcSlot(0, 8);
    UtcSlot(0, 10);
    UtcSlot(1, 10);
  }

  /** It also fails, at one instant, with a two-hour change: two slots are 22 hours apart, not 23, and a sweep
      right at the second passes over a subscriber who is due. */
  lemma SlackSkipsDue()
    ensures Real(TwoHoursForward) && Band(TwoHoursForward, 0, 2 * HOUR)
    ensures var stamped, slot := SlotOf(TwoHoursForward, -1, 12), SlotOf(TwoHoursForward, 0, 12);
      slot - stamped == 22 * HOUR && DigestDue(Some(stamped), slot) == DueNow && !Looks(Some(stamped), slot)
  {
    hide SlotOf;
    SlotBefore();
    SlotAfter();
  }

  /** Whoever is passed over is served by the first sweep behind the 22 hours that can send, if its slot is not
      older. */
  lemma {:induction false} ServedLater(s: State, early: seq<Event>, e: Event, maxAttempts: nat)
    requires s.lastRunAt.Some? && e.Sweep? && e.sending == Succeeds
    requires forall i :: 0 <= i < |early| ==> early[i].Sweep? && early[i].now <= s.lastRunAt.value + SLACK
    requires e.now > s.lastRunAt.value + SLACK && e.slot > s.lastRunAt.value
    ensures Run(s, early, maxAttempts) == s
    ensures Run(s, early + [e], maxAttempts).sent == s.sent + [e.slot]
    decreases |early|
  {
    if early == [] {
      assert early + [e] == [e] && [e][1..] == [];
    } else {
      assert (early + [e])[1..] == early[1..] + [e];
      ServedLater(s, early[1..], e, maxAttempts);
    }
  }

  lemma SlotBefore()
    ensures SlotOf(TwoHoursForward, -1, 12) == -12 * HOUR
  {
    var wall := -12 * HOUR;
    assert LocalTime(-1, 12) == wall;
    assert Earlier(TwoHoursForward, wall) == wall;
    assert Later(TwoHoursForward, wall) == wall - 2 * HOUR;
    assert WallClock(TwoHoursForward, wall) == wall && WallClock(TwoHoursForward, wall - 2 * HOUR) == wall - 2 * HOUR;
  }

  lemma SlotAfter()
    ensures SlotOf(TwoHoursForward, 0, 12) == 10 * HOUR
  {
    var wall := 12 * HOUR;
    assert LocalTime(0, 12) == wall;
    assert Earlier(TwoHoursForward, wall) == wall;
    assert Later(TwoHoursForward, wall) == wall - 2 * HOUR;
    assert WallClock(TwoHoursForward, wall) == wall + 2 * HOUR && WallClock(TwoHoursForward, wall - 2 * HOUR) == wall;
  }
}
