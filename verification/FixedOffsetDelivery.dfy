/** In a zone with a fixed offset and an empty calendar, a selection never falls short. */
module FixedOffsetDelivery {
  import opened Wrappers
  import opened SchedulePolicies
  import opened Candidates
  import opened PickLoop
  import opened SlotGenerators
  import opened SelectionSoundness
  import opened SelectionCompleteness
  import opened SelectionAborts

  ghost predicate InFixedZone(policy: SchedulePolicy, offsetMs: int, lastDate: int) {
    policy.Valid() && policy.timezone == FixedOffset(offsetMs, lastDate)
  }

  /** A policy in a fixed-offset zone that wants at least one release on every allowed day. */
  ghost predicate Eager(policy: SchedulePolicy, offsetMs: int, lastDate: int) {
    InFixedZone(policy, offsetMs, lastDate) && policy.dailyReleases.minimum >= 1
  }

  lemma EagerBasics(policy: SchedulePolicy, offsetMs: int, lastDate: int)
    requires Eager(policy, offsetMs, lastDate)
    ensures policy.minimumSpacingMinutes > 0 && policy.timezone.lastDate == lastDate
    ensures forall instant :: policy.timezone.DateOf(instant) == Some((instant + offsetMs) / DAY_MS)
  {
  }

  function StartOfDay(offsetMs: int, date: int): int {
    date * DAY_MS - offsetMs
  }

  /** The last whole minute any window of a date offers. */
  function LastMinute(policy: SchedulePolicy, offsetMs: int, date: int): int
    requires policy.windows != []
  {
    var end := StartOfDay(offsetMs, date) + policy.windows[|policy.windows| - 1].end * MINUTE_MS;
    (end - 1) / MINUTE_MS * MINUTE_MS
  }

  lemma LastMinuteOfNextDays(policy: SchedulePolicy, offsetMs: int, date: int, days: nat)
    requires policy.windows != []
    ensures LastMinute(policy, offsetMs, date + days) == LastMinute(policy, offsetMs, date) + days * DAY_MS
  {
    var end := StartOfDay(offsetMs, date) + policy.windows[|policy.windows| - 1].end * MINUTE_MS;
    assert StartOfDay(offsetMs, date + days) == StartOfDay(offsetMs, date) + days * DAY_MS;
    assert days * DAY_MS == days * 1440 * MINUTE_MS;
    assert (end - 1 + days * 1440 * MINUTE_MS) / MINUTE_MS == (end - 1) / MINUTE_MS + days * 1440;
  }

  lemma LastMinuteIsOpen(policy: SchedulePolicy, offsetMs: int, lastDate: int, date: int)
    requires InFixedZone(policy, offsetMs, lastDate)
    ensures var last := LastMinute(policy, offsetMs, date);
            last % MINUTE_MS == 0 && StartOfDay(offsetMs, date) <= last
            && InWindow(policy.timezone, policy.windows, date, last)
  {
    var w := policy.windows[|policy.windows| - 1];
    assert w in policy.windows;
    var end := StartOfDay(offsetMs, date) + w.end * MINUTE_MS;
    var last := LastMinute(policy, offsetMs, date);
    assert end - MINUTE_MS <= last < end;
    assert policy.timezone.InstantOf(date, w.start) == Some(StartOfDay(offsetMs, date) + w.start * MINUTE_MS);
    assert policy.timezone.InstantOf(date, w.end) == Some(end);
  }

  lemma AlignedBelow(instant: int, end: int)
    requires instant % MINUTE_MS == 0 && instant < end
    ensures instant <= (end - 1) / MINUTE_MS * MINUTE_MS
  {
    var k := instant / MINUTE_MS;
    assert instant == k * MINUTE_MS;
  }

  lemma LastWindowEndsLast(windows: seq<DailyWindow>, w: DailyWindow)
    requires Disjoint(windows) && w in windows
    ensures w.end <= windows[|windows| - 1].end
  {
    var i :| 0 <= i < |windows| && windows[i] == w;
    if i < |windows| - 1 {
      assert Disjoint(windows[i..]) by {
        forall k | 0 <= k < |windows[i..]| - 1 ensures windows[i..][k].end <= windows[i..][k + 1].start {
          assert windows[i + k].end <= windows[i + k + 1].start;
        }
      }
      StartsAfterFirst(windows[i..], |windows| - 1 - i);
    }
  }

  /** No whole minute inside a window of a date is later than its last minute. */
  lemma NoneAfterLastMinute(policy: SchedulePolicy, offsetMs: int, lastDate: int, date: int, minute: int)
    requires InFixedZone(policy, offsetMs, lastDate)
    requires minute % MINUTE_MS == 0 && InWindow(policy.timezone, policy.windows, date, minute)
    ensures minute <= LastMinute(policy, offsetMs, date)
  {
    var zone := policy.timezone;
    var w :| w in policy.windows && zone.InstantOf(date, w.start).Some? && zone.InstantOf(date, w.end).Some?
      && zone.InstantOf(date, w.start).value <= minute < zone.InstantOf(date, w.end).value;
    assert zone.InstantOf(date, w.end) == Some(StartOfDay(offsetMs, date) + w.end * MINUTE_MS);
    LastWindowEndsLast(policy.windows, w);
    var end := StartOfDay(offsetMs, date) + policy.windows[|policy.windows| - 1].end * MINUTE_MS;
    AlignedBelow(minute, end);
  }

  lemma SlotsEndByLastMinute(
    policy: SchedulePolicy, offsetMs: int, lastDate: int, notBefore: int, existing: seq<int>, slot: PlannedSlot)
    requires InFixedZone(policy, offsetMs, lastDate) && SlotAllowed(policy, notBefore, existing, slot)
    ensures slot.selectedAt <= LastMinute(policy, offsetMs, slot.localDate)
  {
    NoneAfterLastMinute(policy, offsetMs, lastDate, slot.localDate, slot.selectedAt);
  }

  /** What is known of the slots selected before `date` on an empty calendar. */
  ghost predicate Earlier(policy: SchedulePolicy, notBefore: int, date: int, slots: seq<PlannedSlot>) {
    && Sound(policy, notBefore, [], slots)
    && forall slot | slot in slots :: slot.localDate < date
  }

  /** The last minute of a later date is still free. */
  lemma LastMinuteStaysFree(
    policy: SchedulePolicy, offsetMs: int, lastDate: int, notBefore: int, date: int, selected: seq<PlannedSlot>)
    requires Eager(policy, offsetMs, lastDate) && Earlier(policy, notBefore, date, selected)
    ensures Clear(LastMinute(policy, offsetMs, date), Times(selected), policy.SpacingMs())
  {
    forall slot | slot in selected ensures Abs(LastMinute(policy, offsetMs, date) - slot.selectedAt) >= policy.SpacingMs() {
      assert SlotAllowed(policy, notBefore, [], slot);
      SlotsEndByLastMinute(policy, offsetMs, lastDate, notBefore, [], slot);
      LastMinuteOfNextDays(policy, offsetMs, slot.localDate, date - slot.localDate);
      assert (date - slot.localDate) * DAY_MS >= DAY_MS;
    }
    ClearOfSlots(LastMinute(policy, offsetMs, date), selected, policy.SpacingMs());
  }

  lemma {:induction false} AlwaysListable(policy: SchedulePolicy, windows: seq<DailyWindow>, offsetMs: int, lastDate: int,
    date: int, notBefore: int, occupied: seq<int>)
    requires policy.timezone == FixedOffset(offsetMs, lastDate)
    ensures CandidatesIn(policy.timezone, windows, date, notBefore, occupied, policy.SpacingMs()).Ok?
  {
    if windows != [] {
      AlwaysListable(policy, windows[1..], offsetMs, lastDate, date, notBefore, occupied);
    }
  }

  lemma NothingYetToday(
    policy: SchedulePolicy, offsetMs: int, lastDate: int, notBefore: int, date: int, selected: seq<PlannedSlot>)
    requires InFixedZone(policy, offsetMs, lastDate) && Earlier(policy, notBefore, date, selected)
    ensures CountOn(policy.timezone, Times(selected), date) == 0
  {
    FixedOffsetIsCoherent(offsetMs, lastDate);
    forall x | x in Times(selected) ensures policy.timezone.DateOf(x) != Some(date) {
      var i :| 0 <= i < |selected| && Times(selected)[i] == x;
      assert selected[i] in selected && SlotAllowed(policy, notBefore, [], selected[i]);
      SlotFallsOnItsDate(policy, notBefore, [], selected[i]);
    }
    CountOnNone(policy.timezone, Times(selected), date);
  }

  /** Every allowed date after the first takes at least one slot, or aborts. */
  lemma LaterDayDelivers<S>(
    source: Source<S>, policy: SchedulePolicy, offsetMs: int, lastDate: int, notBefore: int, date: int, remaining: nat,
    selected: seq<PlannedSlot>, state: S)
    requires Eager(policy, offsetMs, lastDate) && Earlier(policy, notBefore, date, selected)
    requires notBefore < StartOfDay(offsetMs, date) && remaining > 0
    ensures var day := SelectDay(source, policy, date, notBefore, remaining, [] + Times(selected), state);
            !day.DayRefused? && (day.Day? && WeekdayOf(date) in policy.allowedDays ==> day.instants != [])
  {
    var occupied := [] + Times(selected);
    assert occupied == Times(selected);
    NothingYetToday(policy, offsetMs, lastDate, notBefore, date, selected);
    AlwaysListable(policy, policy.windows, offsetMs, lastDate, date, notBefore, occupied);
    LastMinuteIsOpen(policy, offsetMs, lastDate, date);
    LastMinuteStaysFree(policy, offsetMs, lastDate, notBefore, date, selected);
    var candidates := CandidatesForDate(policy, date, notBefore, occupied, policy.SpacingMs());
    CandidatesExactly(policy, date, notBefore, occupied, policy.SpacingMs(), LastMinute(policy, offsetMs, date));
    hide CandidatesForDate, PickDay, Eager, Earlier, InWindow, LastMinute;
    if WeekdayOf(date) in policy.allowedDays {
      var (wanted, drawn) := Wanted(source, policy, 0, remaining, state);
      PicksAreAsManyAsDraws(candidates.value, Outputs(source, drawn, Min(wanted, |candidates.value|)), policy.SpacingMs());
    }
  }

  /** How many of the next dates are allowed. */
  function AllowedDates(policy: SchedulePolicy, date: int, days: nat): nat
    decreases days
  {
    if days == 0 then 0
    else (if WeekdayOf(date) in policy.allowedDays then 1 else 0) + AllowedDates(policy, date + 1, days - 1)
  }

  lemma EarlierExtends<S>(
    source: Source<S>, policy: SchedulePolicy, notBefore: int, date: int, remaining: nat,
    selected: seq<PlannedSlot>, state: S, day: DayRun<S>)
    requires policy.minimumSpacingMinutes > 0 && Earlier(policy, notBefore, date, selected)
    requires day == SelectDay(source, policy, date, notBefore, remaining, [] + Times(selected), state) && day.Day?
    ensures Earlier(policy, notBefore, date + 1, selected + OnDate(day.instants, date))
  {
    DayExtends(source, policy, date, notBefore, remaining, [], selected, state, day);
  }

  lemma {:induction false} WalkDelivers<S>(
    source: Source<S>, policy: SchedulePolicy, offsetMs: int, lastDate: int, notBefore: int, requested: nat,
    date: int, days: nat, selected: seq<PlannedSlot>, state: S)
    requires Eager(policy, offsetMs, lastDate) && Earlier(policy, notBefore, date, selected)
    requires notBefore < StartOfDay(offsetMs, date) && date + days <= lastDate
    requires |selected| <= requested <= |selected| + AllowedDates(policy, date, days)
    ensures !SelectDays(source, policy, notBefore, requested, [], date, days, selected, state).selection.Refused?
    decreases days
  {
    hide Eager, Earlier, SelectDay, LastMinute;
    EagerBasics(policy, offsetMs, lastDate);
    if |selected| < requested && days > 0 {
      var occupied := [] + Times(selected);
      var day := SelectDay(source, policy, date, notBefore, requested - |selected|, occupied, state);
      NextDay(source, policy, notBefore, requested, [], date, days, selected, state, occupied, day);
      LaterDayDelivers(source, policy, offsetMs, lastDate, notBefore, date, requested - |selected|, selected, state);
      if day.Day? {
        EarlierExtends(source, policy, notBefore, date, requested - |selected|, selected, state, day);
        WalkDelivers(source, policy, offsetMs, lastDate, notBefore, requested, date + 1, days - 1,
                     selected + OnDate(day.instants, date), day.state);
      }
    }
  }

  lemma WalkFromStart<S>(
    source: Source<S>, policy: SchedulePolicy, offsetMs: int, lastDate: int, notBefore: int, start: int,
    requested: nat, state: S)
    requires Eager(policy, offsetMs, lastDate) && policy.timezone == FixedOffset(offsetMs, lastDate)
    requires Earlier(policy, notBefore, start, []) && notBefore < StartOfDay(offsetMs, start + 1)
    requires start + 366 <= lastDate && 0 < requested <= AllowedDates(policy, start + 1, 365)
    ensures !SelectDays(source, policy, notBefore, requested, [], start, 366, [], state).selection.Refused?
  {
    hide Eager, Earlier, SelectDay, SelectDays, AllowedDates, FixedOffset;
    EagerBasics(policy, offsetMs, lastDate);
    assert [] + Times([]) == [];
    FirstDayIsNotRefused(source, policy, offsetMs, lastDate, notBefore, start, requested, state);
    var day := SelectDay(source, policy, start, notBefore, requested, [], state);
    NextDay(source, policy, notBefore, requested, [], start, 366, [], state, [], day);
    if day.Day? {
      EarlierExtends(source, policy, notBefore, start, requested, [], state, day);
      WalkDelivers(source, policy, offsetMs, lastDate, notBefore, requested, start + 1, 365,
                   [] + OnDate(day.instants, start), day.state);
    }
  }

  /** With no existing slots, a request for no more slots than there are allowed dates in the 365 days
      after the start is never refused; only an abort can prevent the answer. */
  lemma NeverFallsShort<S>(
    source: Source<S>, policy: SchedulePolicy, offsetMs: int, lastDate: int, notBefore: int, requested: nat, state: S)
    requires Eager(policy, offsetMs, lastDate) && notBefore >= 0
    requires var start := (notBefore + offsetMs) / DAY_MS;
             start + 366 <= lastDate && requested <= AllowedDates(policy, start + 1, 365)
    ensures !SelectSlots(source, policy, notBefore, requested, [], state).selection.Refused?
  {
    hide SelectDays, AllowedDates;
    var start := (notBefore + offsetMs) / DAY_MS;
    if requested > 0 {
      assert policy.timezone.DateOf(notBefore) == Some(start);
      assert Earlier(policy, notBefore, start, []);
      WalkFromStart(source, policy, offsetMs, lastDate, notBefore, start, requested, state);
    }
  }

  lemma FirstDayIsNotRefused<S>(
    source: Source<S>, policy: SchedulePolicy, offsetMs: int, lastDate: int, notBefore: int, date: int, requested: nat, state: S)
    requires policy.timezone == FixedOffset(offsetMs, lastDate)
    ensures !SelectDay(source, policy, date, notBefore, requested, [], state).DayRefused?
  {
    AlwaysListable(policy, policy.windows, offsetMs, lastDate, date, notBefore, []);
  }

  lemma {:induction false} EveryWeekHasAnAllowedDate(policy: SchedulePolicy, date: int, weeks: nat)
    requires policy.allowedDays != {}
    ensures AllowedDates(policy, date, 7 * weeks) >= weeks
    decreases weeks
  {
    if weeks > 0 {
      EveryWeekHasAnAllowedDate(policy, date + 7, weeks - 1);
      OneWeek(policy, date, 7 * (weeks - 1));
    }
  }

  lemma Reached(date: int, weekday: Weekday) returns (i: nat)
    ensures i < 7 && WeekdayOf(date + i) == weekday
  {
    var number := WeekdayNumber(weekday);
    var today := (date + 3) % 7;
    i := (number - today) % 7;
    assert (date + i + 3) % 7 == number;
  }

  lemma OneWeek(policy: SchedulePolicy, date: int, rest: nat)
    requires policy.allowedDays != {}
    ensures AllowedDates(policy, date, 7 + rest) >= 1 + AllowedDates(policy, date + 7, rest)
  {
    var weekday: Weekday :| weekday in policy.allowedDays;
    var i := Reached(date, weekday);
    assert AllowedDates(policy, date, 7 + rest)
        == Counts(policy, date) + Counts(policy, date + 1) + Counts(policy, date + 2) + Counts(policy, date + 3)
           + Counts(policy, date + 4) + Counts(policy, date + 5) + Counts(policy, date + 6)
           + AllowedDates(policy, date + 7, rest) by {
      assert AllowedDates(policy, date + 6, 1 + rest) == Counts(policy, date + 6) + AllowedDates(policy, date + 7, rest);
      assert AllowedDates(policy, date + 5, 2 + rest) == Counts(policy, date + 5) + AllowedDates(policy, date + 6, 1 + rest);
      assert AllowedDates(policy, date + 4, 3 + rest) == Counts(policy, date + 4) + AllowedDates(policy, date + 5, 2 + rest);
      assert AllowedDates(policy, date + 3, 4 + rest) == Counts(policy, date + 3) + AllowedDates(policy, date + 4, 3 + rest);
      assert AllowedDates(policy, date + 2, 5 + rest) == Counts(policy, date + 2) + AllowedDates(policy, date + 3, 4 + rest);
      assert AllowedDates(policy, date + 1, 6 + rest) == Counts(policy, date + 1) + AllowedDates(policy, date + 2, 5 + rest);
    }
  }

  function Counts(policy: SchedulePolicy, date: int): nat {
    if WeekdayOf(date) in policy.allowedDays then 1 else 0
  }

  function WeekdayNumber(weekday: Weekday): nat {
    match weekday
    case Monday => 0
    case Tuesday => 1
    case Wednesday => 2
    case Thursday => 3
    case Friday => 4
    case Saturday => 5
    case Sunday => 6
  }

  /** Fifty-two slots or fewer are therefore never refused, and with a daily maximum or a spacing of one
      every such request is answered. */
  lemma AYearHoldsFiftyTwo<S>(
    source: Source<S>, policy: SchedulePolicy, offsetMs: int, lastDate: int, notBefore: int, requested: nat, state: S)
    requires Eager(policy, offsetMs, lastDate) && notBefore >= 0 && requested <= 52
    requires (notBefore + offsetMs) / DAY_MS + 366 <= lastDate
    ensures var r := SelectSlots(source, policy, notBefore, requested, [], state).selection;
            && !r.Refused?
            && (requested <= 1 || policy.dailyReleases.maximum == 1 || policy.minimumSpacingMinutes == 1 ==> r.Selected?)
  {
    var start := (notBefore + offsetMs) / DAY_MS;
    EveryWeekHasAnAllowedDate(policy, start + 1, 52);
    MoreDatesAllowMore(policy, start + 1, 364, 365);
    NeverFallsShort(source, policy, offsetMs, lastDate, notBefore, requested, state);
    if requested <= 1 || policy.dailyReleases.maximum == 1 {
      OneSlotNeverAborts(source, policy, notBefore, requested, [], state);
    }
    if policy.minimumSpacingMinutes == 1 {
      MinuteSpacingNeverAborts(source, policy, offsetMs, lastDate, notBefore, requested, [], state);
    }
  }

  lemma {:induction false} MoreDatesAllowMore(policy: SchedulePolicy, date: int, fewer: nat, more: nat)
    requires fewer <= more
    ensures AllowedDates(policy, date, fewer) <= AllowedDates(policy, date, more)
    decreases fewer
  {
    if fewer > 0 {
      MoreDatesAllowMore(policy, date + 1, fewer - 1, more - 1);
    }
  }

  // --------------------------------------------- which policies never abort

  ghost predicate CanAbort(policy: SchedulePolicy, notBefore: int, requested: nat, existing: seq<int>) {
    exists source: Source<int>, state: int ::
      SelectSlots(source, policy, notBefore, requested, existing, state).selection.Aborted?
  }

  /** The two last minutes of a day, alone: taking either leaves nothing for a second draw. */
  lemma LastTwoMinutesCanAbort(policy: SchedulePolicy, offsetMs: int, lastDate: int, date: int)
    requires InFixedZone(policy, offsetMs, lastDate)
    requires policy.windows[|policy.windows| - 1].start + 2 <= policy.windows[|policy.windows| - 1].end
    requires policy.dailyReleases.maximum >= 2 && policy.minimumSpacingMinutes >= 2
    requires WeekdayOf(date) in policy.allowedDays
    ensures DayCanAbort(policy, date, LastMinute(policy, offsetMs, date) - MINUTE_MS, 2, [])
  {
    hide Disjoint, FewestPicks, CandidatesIn;
    var last := LastMinute(policy, offsetMs, date);
    var notBefore := last - MINUTE_MS;
    AlwaysListable(policy, policy.windows, offsetMs, lastDate, date, notBefore, []);
    var candidates := Offered(policy, date, notBefore, []).value;
    LastMinuteIsOpen(policy, offsetMs, lastDate, date);
    MinuteBeforeIsOpen(policy, offsetMs, lastDate, date);
    forall m ensures m in Instants(candidates) <==> m == last || m == notBefore {
      CandidatesExactly(policy, date, notBefore, [], policy.SpacingMs(), m);
      if m in candidates {
        NoneAfterLastMinute(policy, offsetMs, lastDate, date, m);
        BetweenMinutes(notBefore, m);
      }
    }
    TwoCloseTakeOnePick(Instants(candidates), notBefore, last, policy.SpacingMs());
    assert last in Instants(candidates) && notBefore in Instants(candidates);
    assert |candidates| >= 2;
  }

  lemma BetweenMinutes(first: int, m: int)
    requires first % MINUTE_MS == 0 && m % MINUTE_MS == 0 && first <= m <= first + MINUTE_MS
    ensures m == first || m == first + MINUTE_MS
  {
  }

  lemma MinuteBeforeIsOpen(policy: SchedulePolicy, offsetMs: int, lastDate: int, date: int)
    requires InFixedZone(policy, offsetMs, lastDate)
    requires policy.windows[|policy.windows| - 1].start + 2 <= policy.windows[|policy.windows| - 1].end
    ensures var minute := LastMinute(policy, offsetMs, date) - MINUTE_MS;
            && minute % MINUTE_MS == 0 && StartOfDay(offsetMs, date) <= minute < StartOfDay(offsetMs, date + 1)
            && InWindow(policy.timezone, policy.windows, date, minute)
  {
    var w := policy.windows[|policy.windows| - 1];
    assert w in policy.windows;
    var end := StartOfDay(offsetMs, date) + w.end * MINUTE_MS;
    assert end - MINUTE_MS <= LastMinute(policy, offsetMs, date) < end;
    assert policy.timezone.InstantOf(date, w.start) == Some(StartOfDay(offsetMs, date) + w.start * MINUTE_MS);
    assert policy.timezone.InstantOf(date, w.end) == Some(end);
  }

  lemma TwoCloseTakeOnePick(candidates: set<int>, a: int, b: int, gap: int)
    requires (forall x :: x in candidates <==> x == a || x == b) && a < b < a + gap
    ensures FewestPicks(candidates, gap) == 1
  {
    assert a in candidates && b in candidates;
    var rest := Beyond(candidates, gap);
    assert WidestPick(candidates, gap) == b;
    assert rest == {};
  }

  /** A date the policy allows that starts after the epoch. */
  lemma SomeAllowedDate(policy: SchedulePolicy, offsetMs: int) returns (date: int)
    requires policy.allowedDays != {}
    ensures WeekdayOf(date) in policy.allowedDays && StartOfDay(offsetMs, date) >= 0
  {
    var from := offsetMs / DAY_MS + 1;
    var weekday: Weekday :| weekday in policy.allowedDays;
    var i := Reached(from, weekday);
    date := from + i;
    assert date * DAY_MS >= from * DAY_MS;
  }

  /** Starting at the first minute offered leaves the same minutes, however late the original start. */
  lemma SameFromFirst(
    policy: SchedulePolicy, offsetMs: int, lastDate: int, date: int, notBefore: int, occupied: seq<int>, taken: seq<int>)
    returns (first: int)
    requires InFixedZone(policy, offsetMs, lastDate)
    requires Offered(policy, date, notBefore, occupied).Ok? && Offered(policy, date, notBefore, occupied).value != []
    requires forall m | notBefore <= m && m % MINUTE_MS == 0 && InWindow(policy.timezone, policy.windows, date, m)
                        && Clear(m, occupied, policy.SpacingMs()) :: Clear(m, taken, policy.SpacingMs())
    requires forall m, n | notBefore <= m <= n && m % MINUTE_MS == 0
                           && InWindow(policy.timezone, policy.windows, date, m)
                           && InWindow(policy.timezone, policy.windows, date, n)
                           && Clear(m, occupied, policy.SpacingMs()) && Clear(n, taken, policy.SpacingMs()) ::
               Clear(n, occupied, policy.SpacingMs())
    ensures notBefore <= first && policy.timezone.DateOf(first) == Some(date)
    ensures Offered(policy, date, first, taken).Ok?
    ensures Instants(Offered(policy, date, first, taken).value) == Instants(Offered(policy, date, notBefore, occupied).value)
    ensures |Offered(policy, date, first, taken).value| == |Offered(policy, date, notBefore, occupied).value|
  {
    hide CandidatesIn, FixedOffset, InWindow, Clear;
    var all := Offered(policy, date, notBefore, occupied).value;
    CandidatesRise(offsetMs, lastDate, policy.windows, date, notBefore, occupied, policy.SpacingMs());
    first := all[0];
    assert first in all;
    CandidatesExactly(policy, date, notBefore, occupied, policy.SpacingMs(), first);
    WindowOnDate(policy, offsetMs, lastDate, date, first);
    AlwaysListable(policy, policy.windows, offsetMs, lastDate, date, first, taken);
    CandidatesRise(offsetMs, lastDate, policy.windows, date, first, taken, policy.SpacingMs());
    var later := Offered(policy, date, first, taken).value;
    forall m ensures m in later <==> m in all {
      CandidatesExactly(policy, date, notBefore, occupied, policy.SpacingMs(), m);
      CandidatesExactly(policy, date, first, taken, policy.SpacingMs(), m);
    }
    RisingHasNoRepeats(later);
    RisingHasNoRepeats(all);
    assert Instants(later) == Instants(all);
  }

  lemma WindowOnDate(policy: SchedulePolicy, offsetMs: int, lastDate: int, date: int, m: int)
    requires InFixedZone(policy, offsetMs, lastDate) && InWindow(policy.timezone, policy.windows, date, m)
    ensures policy.timezone.DateOf(m) == Some(date) && StartOfDay(offsetMs, date) <= m
  {
    FixedOffsetIsCoherent(offsetMs, lastDate);
    var zone := policy.timezone;
    var w :| w in policy.windows && zone.InstantOf(date, w.start).Some? && zone.InstantOf(date, w.end).Some?
      && zone.InstantOf(date, w.start).value <= m < zone.InstantOf(date, w.end).value;
    assert zone.InstantOf(date, w.start) == Some(StartOfDay(offsetMs, date) + w.start * MINUTE_MS);
  }

  /** Wherever some draws lead to an abort, a day is met that can abort. */
  lemma {:induction false} SomeDayCanAbort(
    policy: SchedulePolicy, notBefore: int, requested: nat, existing: seq<int>, date: int, days: nat, selected: seq<PlannedSlot>)
    returns (on: int, remaining: nat, occupied: seq<int>)
    requires LeadsToAbort(policy, notBefore, requested, existing, date, days, selected)
    ensures DayCanAbort(policy, on, notBefore, remaining, occupied)
    decreases days
  {
    hide DayCanAbort, DayCanTake;
    on, remaining, occupied := date, requested - |selected|, existing + Times(selected);
    if !DayCanAbort(policy, on, notBefore, remaining, occupied) {
      var instants :| DayCanTake(policy, date, notBefore, remaining, occupied, instants)
        && LeadsToAbort(policy, notBefore, requested, existing, date + 1, days - 1, selected + OnDate(instants, date));
      on, remaining, occupied :=
        SomeDayCanAbort(policy, notBefore, requested, existing, date + 1, days - 1, selected + OnDate(instants, date));
    }
  }

  /** From this start, beside these slots, a day's draws may be more than the fewest picks that use its minutes up. */
  ghost predicate Overdrawn(policy: SchedulePolicy, date: int, start: int, taken: seq<int>) {
    0 <= start && policy.timezone.DateOf(start) == Some(date)
    && DayCanAbort(policy, date, start, policy.dailyReleases.maximum, taken)
  }

  lemma OverdrawnCanAbort(policy: SchedulePolicy, date: int, start: int, taken: seq<int>)
    requires Overdrawn(policy, date, start, taken)
    ensures CanAbort(policy, start, policy.dailyReleases.maximum, taken)
  {
    hide SelectSlots, DayCanAbort;
    NeedsSpacing(policy, date, start, policy.dailyReleases.maximum, taken);
    assert taken + Times([]) == taken;
    assert LeadsToAbort(policy, start, policy.dailyReleases.maximum, taken, date, MAX_SCHEDULING_HORIZON_DAYS, []);
    AbortsExactly(policy, start, policy.dailyReleases.maximum, taken);
  }

  lemma NeedsSpacing(policy: SchedulePolicy, date: int, notBefore: int, remaining: nat, occupied: seq<int>)
    requires DayCanAbort(policy, date, notBefore, remaining, occupied)
    ensures policy.minimumSpacingMinutes > 0
    ensures HasRoom(policy, date, occupied) && Offered(policy, date, notBefore, occupied).Ok?
    ensures Offered(policy, date, notBefore, occupied).value != []
  {
  }

  /** Fewer than this many picks use the minutes up, so a larger request, on the same minutes, can abort too. */
  lemma MoreCanAbort(
    policy: SchedulePolicy, date: int, notBefore: int, remaining: nat, occupied: seq<int>, start: int, taken: seq<int>)
    requires DayCanAbort(policy, date, notBefore, remaining, occupied) && Offered(policy, date, start, taken).Ok?
    requires Instants(Offered(policy, date, start, taken).value) == Instants(Offered(policy, date, notBefore, occupied).value)
    requires |Offered(policy, date, start, taken).value| == |Offered(policy, date, notBefore, occupied).value|
    requires CountOn(policy.timezone, taken, date) <= CountOn(policy.timezone, occupied, date)
    ensures DayCanAbort(policy, date, start, policy.dailyReleases.maximum, taken)
  {
    hide CandidatesForDate, FewestPicks, CountOn;
  }

  lemma AbortIsOverdrawn(policy: SchedulePolicy, offsetMs: int, lastDate: int, notBefore: int, requested: nat, existing: seq<int>)
    returns (date: int, start: int, taken: seq<int>)
    requires InFixedZone(policy, offsetMs, lastDate) && CanAbort(policy, notBefore, requested, existing)
    ensures Overdrawn(policy, date, start, taken)
  {
    hide SelectSlots, DayCanAbort, LeadsToAbort, CandidatesForDate, InWindow, Clear;
    AbortsExactly(policy, notBefore, requested, existing);
    var on, remaining, occupied := SomeDayCanAbort(policy, notBefore, requested, existing,
      policy.timezone.DateOf(notBefore).value, MAX_SCHEDULING_HORIZON_DAYS, []);
    NeedsSpacing(policy, on, notBefore, remaining, occupied);
    date, taken := on, occupied;
    start := SameFromFirst(policy, offsetMs, lastDate, on, notBefore, occupied, occupied);
    MoreCanAbort(policy, on, notBefore, remaining, occupied, start, occupied);
  }

  /**
   * In a fixed-offset zone a policy aborts for some call and draws exactly when, on some day, from some start
   * and beside some slots already there, fewer picks use the free minutes up than there are minutes and the
   * daily maximum leaves room for.
   */
  lemma PolicyCanAbortExactly(policy: SchedulePolicy, offsetMs: int, lastDate: int)
    requires InFixedZone(policy, offsetMs, lastDate)
    ensures (exists notBefore: int, requested: nat, existing: seq<int> :: CanAbort(policy, notBefore, requested, existing))
            <==> exists date: int, start: int, taken: seq<int> :: Overdrawn(policy, date, start, taken)
  {
    hide CanAbort, Overdrawn;
    if date: int, start: int, taken: seq<int> :| Overdrawn(policy, date, start, taken) {
      OverdrawnCanAbort(policy, date, start, taken);
    }
    if notBefore: int, requested: nat, existing: seq<int> :| CanAbort(policy, notBefore, requested, existing) {
      var date, start, taken := AbortIsOverdrawn(policy, offsetMs, lastDate, notBefore, requested, existing);
    }
  }

  // ------------------------------------------------- on an empty calendar

  lemma TakingStaysEarlier(
    policy: SchedulePolicy, notBefore: int, date: int, remaining: nat, selected: seq<PlannedSlot>, instants: seq<int>)
    requires policy.minimumSpacingMinutes > 0 && Earlier(policy, notBefore, date, selected)
    requires DayCanTake(policy, date, notBefore, remaining, [] + Times(selected), instants)
    ensures Earlier(policy, notBefore, date + 1, selected + OnDate(instants, date))
  {
    hide Earlier, SelectDay, DayCanTake, Scripted;
    var part := TakingPart(policy, date, notBefore, remaining, [] + Times(selected), instants);
    var none: seq<nat> := [];
    var source := Scripted(none + part + none);
    var day := SelectDay(source, policy, date, notBefore, remaining, [] + Times(selected), |none|);
    assert day == Day(|none| + |part|, instants);
    EarlierExtends(source, policy, notBefore, date, remaining, selected, |none|, day);
  }

  lemma {:induction false} SomeEarlierDayCanAbort(
    policy: SchedulePolicy, notBefore: int, requested: nat, date: int, days: nat, selected: seq<PlannedSlot>)
    returns (on: int, remaining: nat, earlier: seq<PlannedSlot>)
    requires policy.minimumSpacingMinutes > 0 && Earlier(policy, notBefore, date, selected)
    requires LeadsToAbort(policy, notBefore, requested, [], date, days, selected)
    ensures DayCanAbort(policy, on, notBefore, remaining, [] + Times(earlier)) && Earlier(policy, notBefore, on, earlier)
    decreases days
  {
    hide DayCanAbort, DayCanTake, Earlier;
    on, remaining, earlier := date, requested - |selected|, selected;
    if !DayCanAbort(policy, on, notBefore, remaining, [] + Times(earlier)) {
      var instants :| DayCanTake(policy, date, notBefore, remaining, [] + Times(selected), instants)
        && LeadsToAbort(policy, notBefore, requested, [], date + 1, days - 1, selected + OnDate(instants, date));
      TakingStaysEarlier(policy, notBefore, date, remaining, selected, instants);
      on, remaining, earlier :=
        SomeEarlierDayCanAbort(policy, notBefore, requested, date + 1, days - 1, selected + OnDate(instants, date));
    }
  }

  /** Slots of earlier dates lie before a date's windows. */
  lemma EarlierLieBefore(
    policy: SchedulePolicy, offsetMs: int, lastDate: int, notBefore: int, date: int, earlier: seq<PlannedSlot>, m: int, x: int)
    requires InFixedZone(policy, offsetMs, lastDate) && Earlier(policy, notBefore, date, earlier)
    requires InWindow(policy.timezone, policy.windows, date, m) && x in Times(earlier)
    ensures x < m
  {
    hide InWindow;
    var i :| 0 <= i < |earlier| && Times(earlier)[i] == x;
    var slot := earlier[i];
    assert slot in earlier && SlotAllowed(policy, notBefore, [], slot);
    WindowOnDate(policy, offsetMs, lastDate, date, m);
    WindowOnDate(policy, offsetMs, lastDate, slot.localDate, slot.selectedAt);
    assert x + offsetMs < (slot.localDate + 1) * DAY_MS <= date * DAY_MS;
  }

  lemma ClearFromHere(m: int, n: int, occupied: seq<int>, gap: int)
    requires m <= n && Clear(m, occupied, gap) && forall x | x in occupied :: x < m
    ensures Clear(n, occupied, gap)
  {
  }

  lemma EmptyAbortIsOverdrawn(policy: SchedulePolicy, offsetMs: int, lastDate: int, notBefore: int, requested: nat)
    returns (date: int, start: int)
    requires InFixedZone(policy, offsetMs, lastDate) && CanAbort(policy, notBefore, requested, [])
    ensures Overdrawn(policy, date, start, [])
  {
    hide SelectSlots, DayCanAbort, LeadsToAbort, CandidatesForDate, InWindow, Clear, Earlier;
    AbortsExactly(policy, notBefore, requested, []);
    var first := policy.timezone.DateOf(notBefore).value;
    NothingIsEarlier(policy, notBefore, first);
    var on, remaining, earlier :=
      SomeEarlierDayCanAbort(policy, notBefore, requested, first, MAX_SCHEDULING_HORIZON_DAYS, []);
    var occupied := [] + Times(earlier);
    assert occupied == Times(earlier);
    NeedsSpacing(policy, on, notBefore, remaining, occupied);
    date := on;
    forall m ensures Clear(m, [], policy.SpacingMs()) {
      AlwaysClear(m, policy.SpacingMs());
    }
    forall m, n | notBefore <= m <= n && m % MINUTE_MS == 0
                  && InWindow(policy.timezone, policy.windows, on, m) && InWindow(policy.timezone, policy.windows, on, n)
                  && Clear(m, occupied, policy.SpacingMs()) && Clear(n, [], policy.SpacingMs())
      ensures Clear(n, occupied, policy.SpacingMs())
    {
      forall x | x in occupied ensures x < m {
        EarlierLieBefore(policy, offsetMs, lastDate, notBefore, on, earlier, m, x);
      }
      ClearFromHere(m, n, occupied, policy.SpacingMs());
    }
    start := SameFromFirst(policy, offsetMs, lastDate, on, notBefore, occupied, []);
    MoreCanAbort(policy, on, notBefore, remaining, occupied, start, []);
  }

  lemma AlwaysClear(m: int, gap: int)
    ensures Clear(m, [], gap)
  {
  }

  lemma NothingIsEarlier(policy: SchedulePolicy, notBefore: int, date: int)
    ensures Earlier(policy, notBefore, date, [])
  {
  }

  /**
   * With no slots yet, it aborts for some call exactly when, on some day and from some start, fewer picks use the
   * remaining minutes up than there are minutes and the daily maximum allows: the windows alone decide.
   */
  lemma EmptyCalendarCanAbortExactly(policy: SchedulePolicy, offsetMs: int, lastDate: int)
    requires InFixedZone(policy, offsetMs, lastDate)
    ensures (exists notBefore: int, requested: nat :: CanAbort(policy, notBefore, requested, []))
            <==> exists date: int, start: int :: Overdrawn(policy, date, start, [])
  {
    hide CanAbort, Overdrawn;
    if date: int, start: int :| Overdrawn(policy, date, start, []) {
      OverdrawnCanAbort(policy, date, start, []);
    }
    if notBefore: int, requested: nat :| CanAbort(policy, notBefore, requested, []) {
      var date, start := EmptyAbortIsOverdrawn(policy, offsetMs, lastDate, notBefore, requested);
    }
  }

  /**
   * A policy whose last window is at least two minutes long aborts for some time, number of slots, calendar
   * and draws exactly when it allows two releases on one day and spaces them by more than a minute.
   */
  lemma LongWindowCanAbortExactly(policy: SchedulePolicy, offsetMs: int, lastDate: int)
    requires InFixedZone(policy, offsetMs, lastDate)
    requires policy.windows[|policy.windows| - 1].start + 2 <= policy.windows[|policy.windows| - 1].end
    ensures (exists notBefore: int, requested: nat, existing: seq<int> :: CanAbort(policy, notBefore, requested, existing))
            <==> policy.dailyReleases.maximum >= 2 && policy.minimumSpacingMinutes >= 2
  {
    hide SelectSlots, DayCanAbort;
    if policy.dailyReleases.maximum >= 2 && policy.minimumSpacingMinutes >= 2 {
      var date := SomeAllowedDate(policy, offsetMs);
      var notBefore := LastMinute(policy, offsetMs, date) - MINUTE_MS;
      LastTwoMinutesCanAbort(policy, offsetMs, lastDate, date);
      MinuteBeforeIsOpen(policy, offsetMs, lastDate, date);
      assert policy.timezone.DateOf(notBefore) == Some(date);
      assert [] + Times([]) == [];
      assert LeadsToAbort(policy, notBefore, 2, [], date, MAX_SCHEDULING_HORIZON_DAYS, []);
      AbortsExactly(policy, notBefore, 2, []);
      assert CanAbort(policy, notBefore, 2, []);
    } else {
      forall notBefore: int, requested: nat, existing: seq<int> ensures !CanAbort(policy, notBefore, requested, existing) {
        forall source: Source<int>, state: int
          ensures !SelectSlots(source, policy, notBefore, requested, existing, state).selection.Aborted?
        {
          if policy.dailyReleases.maximum == 1 {
            OneSlotNeverAborts(source, policy, notBefore, requested, existing, state);
          } else {
            MinuteSpacingNeverAborts(source, policy, offsetMs, lastDate, notBefore, requested, existing, state);
          }
        }
      }
    }
  }
}
