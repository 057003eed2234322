/** The scheduling rules in plain terms: calendar days, minutes and milliseconds, and which rule a refusal names. */
module ScheduleRules {
  import opened Wrappers
  import opened SchedulePolicies
  import opened Candidates
  import opened PickLoop
  import opened SlotGenerators
  import opened SelectionSoundness
  import opened SelectionCompleteness
  import opened RequestedSlots
  import opened FixedOffsetDelivery

  // ------------------------------------------------------------- the calendar

  /** 1970-01-01 was a Thursday, and the days of the week follow one another. */
  lemma WeekdaysFollowTheCalendar(date: int)
    ensures WeekdayOf(0) == Thursday
    ensures WeekdayOf(date + 1) ==
      match WeekdayOf(date)
      case Monday => Tuesday
      case Tuesday => Wednesday
      case Wednesday => Thursday
      case Thursday => Friday
      case Friday => Saturday
      case Saturday => Sunday
      case Sunday => Monday
  {
    assert (date + 1 + 3) % 7 == if (date + 3) % 7 == 6 then 0 else (date + 3) % 7 + 1;
  }

  /** The same day of the week comes back after whole weeks, and after nothing else. */
  lemma {:induction false} WeekdaysRepeatWeekly(date: int, days: nat)
    ensures WeekdayOf(date + days) == WeekdayOf(date) <==> days % 7 == 0
    decreases days
  {
    if days >= 7 {
      WeekdaysRepeatWeekly(date, days - 7);
      assert (date + days - 7 + 7 + 3) % 7 == (date + days - 7 + 3) % 7;
    }
  }

  /** Of the minutes of a civil day, this one is inside a window. */
  ghost predicate WithinHours(windows: seq<DailyWindow>, msOfDay: int) {
    exists w | w in windows :: w.start * 60_000 <= msOfDay < w.end * 60_000
  }

  lemma HoursOfDay(policy: SchedulePolicy, offsetMs: int, lastDate: int, date: int, instant: int)
    requires policy.timezone == FixedOffset(offsetMs, lastDate)
    requires InWindow(policy.timezone, policy.windows, date, instant)
    ensures (instant + offsetMs) / 86_400_000 == date
    ensures WithinHours(policy.windows, (instant + offsetMs) % 86_400_000)
  {
    var zone := policy.timezone;
    var w :| w in policy.windows && zone.InstantOf(date, w.start).Some? && zone.InstantOf(date, w.end).Some?
      && zone.InstantOf(date, w.start).value <= instant < zone.InstantOf(date, w.end).value;
    var ms := instant + offsetMs - date * 86_400_000;
    assert w.start * 60_000 <= ms < w.end * 60_000 <= 86_400_000;
    assert instant + offsetMs == date * 86_400_000 + ms;
    DivideDay(date, ms);
  }

  lemma DivideDay(date: int, ms: int)
    requires 0 <= ms < 86_400_000
    ensures (date * 86_400_000 + ms) / 86_400_000 == date && (date * 86_400_000 + ms) % 86_400_000 == ms
  {
  }

  /** A selected slot read off the clock: a whole minute of its own civil day, on an allowed day, within the hours. */
  ghost predicate OnTheClock(policy: SchedulePolicy, offsetMs: int, notBefore: int, existing: seq<int>, slot: PlannedSlot) {
    && slot.selectedAt % 60_000 == 0 && notBefore <= slot.selectedAt
    && (slot.selectedAt + offsetMs) / 86_400_000 == slot.localDate
    && WithinHours(policy.windows, (slot.selectedAt + offsetMs) % 86_400_000)
    && (match slot.localDate % 7
        case 0 => Thursday in policy.allowedDays
        case 1 => Friday in policy.allowedDays
        case 2 => Saturday in policy.allowedDays
        case 3 => Sunday in policy.allowedDays
        case 4 => Monday in policy.allowedDays
        case 5 => Tuesday in policy.allowedDays
        case _ => Wednesday in policy.allowedDays)
    && forall taken | taken in existing ::
         slot.selectedAt - taken >= policy.minimumSpacingMinutes * 60_000
         || taken - slot.selectedAt >= policy.minimumSpacingMinutes * 60_000
  }

  lemma AllowedIsOnTheClock(
    policy: SchedulePolicy, offsetMs: int, lastDate: int, notBefore: int, existing: seq<int>, slot: PlannedSlot)
    requires policy.timezone == FixedOffset(offsetMs, lastDate) && SlotAllowed(policy, notBefore, existing, slot)
    ensures OnTheClock(policy, offsetMs, notBefore, existing, slot)
  {
    HoursOfDay(policy, offsetMs, lastDate, slot.localDate, slot.selectedAt);
    hide InWindow, CandidatesForDate, WithinHours;
    forall taken | taken in existing
      ensures slot.selectedAt - taken >= policy.minimumSpacingMinutes * 60_000
              || taken - slot.selectedAt >= policy.minimumSpacingMinutes * 60_000
    {
      assert Abs(slot.selectedAt - taken) >= policy.SpacingMs();
    }
  }

  /**
   * In a zone with a fixed offset a selection can be checked with a calendar and a clock: so many slots, in
   * order, far enough apart, each on the clock and within 366 days of the start.
   */
  lemma SelectionByTheClock<S>(
    source: Source<S>, policy: SchedulePolicy, offsetMs: int, lastDate: int, notBefore: int, requested: nat,
    existing: seq<int>, state: S)
    requires InFixedZone(policy, offsetMs, lastDate)
    requires SelectSlots(source, policy, notBefore, requested, existing, state).selection.Selected?
    ensures var slots := SelectSlots(source, policy, notBefore, requested, existing, state).selection.slots;
            && |slots| == requested
            && (forall slot | slot in slots :: OnTheClock(policy, offsetMs, notBefore, existing, slot))
            && (forall slot | slot in slots ::
                  var start := (notBefore + offsetMs) / 86_400_000; start <= slot.localDate < start + 366)
            && forall i | 0 <= i < |slots| - 1 ::
                 slots[i].selectedAt + policy.minimumSpacingMinutes * 60_000 <= slots[i + 1].selectedAt
  {
    SelectionIsSound(source, policy, notBefore, requested, existing, state);
    WithinHorizon(source, policy, offsetMs, lastDate, notBefore, requested, existing, state);
    hide SelectSlots, SlotAllowed, OnTheClock;
    var slots := SelectSlots(source, policy, notBefore, requested, existing, state).selection.slots;
    forall slot | slot in slots ensures OnTheClock(policy, offsetMs, notBefore, existing, slot) {
      AllowedIsOnTheClock(policy, offsetMs, lastDate, notBefore, existing, slot);
    }
    forall i | 0 <= i < |slots| - 1
      ensures slots[i].selectedAt + policy.minimumSpacingMinutes * 60_000 <= slots[i + 1].selectedAt
    {
      assert Times(slots)[i] + policy.SpacingMs() <= Times(slots)[i + 1];
    }
  }

  ghost predicate DatedWithin(slots: seq<PlannedSlot>, from: int, to: int) {
    forall slot | slot in slots :: from <= slot.localDate < to
  }

  lemma {:induction false} WalkStaysWithin<S>(
    source: Source<S>, policy: SchedulePolicy, notBefore: int, requested: nat, existing: seq<int>,
    date: int, days: nat, selected: seq<PlannedSlot>, state: S, from: int)
    requires from <= date && DatedWithin(selected, from, date + days)
    ensures var r := SelectDays(source, policy, notBefore, requested, existing, date, days, selected, state).selection;
            r.Selected? ==> DatedWithin(r.slots, from, date + days)
    decreases days
  {
    hide SelectDay;
    if |selected| != requested && days > 0 {
      var day := SelectDay(source, policy, date, notBefore, Minus(requested, |selected|), existing + Times(selected), state);
      if day.Day? {
        var more := selected + OnDate(day.instants, date);
        WalkStaysWithin(source, policy, notBefore, requested, existing, date + 1, days - 1, more, day.state, from);
      }
    }
  }

  lemma WithinHorizon<S>(
    source: Source<S>, policy: SchedulePolicy, offsetMs: int, lastDate: int, notBefore: int, requested: nat,
    existing: seq<int>, state: S)
    requires policy.timezone == FixedOffset(offsetMs, lastDate)
    requires SelectSlots(source, policy, notBefore, requested, existing, state).selection.Selected?
    ensures var start := (notBefore + offsetMs) / 86_400_000;
            DatedWithin(SelectSlots(source, policy, notBefore, requested, existing, state).selection.slots, start, start + 366)
  {
    hide SelectDays;
    if requested > 0 {
      var start := (notBefore + offsetMs) / 86_400_000;
      assert policy.timezone.DateOf(notBefore) == Some(start);
      WalkStaysWithin(source, policy, notBefore, requested, existing, start, 366, [], state, start);
    }
  }

  // ------------------------------------------------------------- the draws

  /** What the generator gives first for the seed that would be absorbed, and for the one after it. */
  lemma FirstDraws()
    ensures Outputs(XORSHIFT, Seed(0), 1) == [973819730272012410]
    ensures Outputs(XORSHIFT, Seed(1), 1) == [5180492295206395165]
  {
    assert NextState(0x9E37_79B9_7F4A_7C15) == 285734347287933762;
    assert (285734347287933762 as bv64) * 0x2545_F491_4F6C_DD1D == 973819730272012410;
    assert NextState(1) == 33554433;
    assert (33554433 as bv64) * 0x2545_F491_4F6C_DD1D == 5180492295206395165;
  }

  /** Four minutes a day, from nine o'clock on, each of which may be used. */
  const FOUR_MINUTES := SchedulePolicy(FixedOffset(0, 1000), EVERY_DAY, [Interval(540, 544)], Range(4, 4), 1, RescheduleForward)

  lemma FourCandidates()
    ensures CandidatesForDate(FOUR_MINUTES, 0, 0, [], 60_000) == Ok([32_400_000, 32_460_000, 32_520_000, 32_580_000])
  {
    var windows := FOUR_MINUTES.windows;
    assert windows == [Interval(540, 544)] && windows[1..] == [];
    assert FOUR_MINUTES.timezone.InstantOf(0, 540) == Some(32_400_000);
    assert FOUR_MINUTES.timezone.InstantOf(0, 544) == Some(32_640_000);
    assert RoundUpToMinute(32_400_000) == 32_400_000;
    assert CandidatesIn(FOUR_MINUTES.timezone, [], 0, 0, [], 60_000) == Ok([]);
    var all: seq<int> := [32_400_000, 32_460_000, 32_520_000, 32_580_000];
    assert all + [] == all;
    assert FreeMinutes(32_640_000, 32_640_000, [], 60_000) == [];
    assert FreeMinutes(32_580_000, 32_640_000, [], 60_000) == [32_580_000];
    assert FreeMinutes(32_520_000, 32_640_000, [], 60_000) == [32_520_000, 32_580_000];
    assert FreeMinutes(32_460_000, 32_640_000, [], 60_000) == [32_460_000, 32_520_000, 32_580_000];
    assert FreeMinutes(32_400_000, 32_640_000, [], 60_000) == [32_400_000, 32_460_000, 32_520_000, 32_580_000];
  }

  lemma TwoDrawsOfTen()
    ensures Outputs(XORSHIFT, 10, 2) == [9539791489172170984, 3173417380409096424]
  {
    assert NextState(10) == 335544328;
    assert NextState(335544328) == 11261747864342536;
    assert (335544328 as bv64) * 0x2545_F491_4F6C_DD1D == 9539791489172170984;
    assert (11261747864342536 as bv64) * 0x2545_F491_4F6C_DD1D == 3173417380409096424;
    var second := Outputs(XORSHIFT, 335544328, 1);
    assert second == [3173417380409096424];
    assert Outputs(XORSHIFT, 10, 2) == [9539791489172170984] + second;
  }

  lemma {:induction false} NothingTooClose(candidates: seq<int>, taken: int, spacingMs: int)
    requires forall k | 0 <= k < |candidates| :: Abs(candidates[k] - taken) >= spacingMs
    ensures Retain(candidates, taken, spacingMs) == candidates
  {
    if candidates != [] {
      NothingTooClose(candidates[1..], taken, spacingMs);
    }
  }

  /** A draw takes the candidate whose place is its remainder. */
  lemma OneDrawTakes(candidates: seq<int>, draw: nat, later: seq<nat>, spacingMs: int)
    requires candidates != []
    ensures var index := draw % |candidates|;
            var rest := PickDay(AfterPick(candidates, index, spacingMs), later, spacingMs);
            PickDay(candidates, [draw] + later, spacingMs)
            == if rest.RanDry? then RanDry else Picked([candidates[index]] + rest.instants)
  {
    assert ([draw] + later)[1..] == later;
  }

  /** Both draws are of the first place; the second finds there what came last before the first. */
  lemma TwoPicksOfFour()
    ensures var all, draws := [32_400_000, 32_460_000, 32_520_000, 32_580_000], [9539791489172170984, 3173417380409096424];
            PickDay(all, draws, 60_000) == Picked([32_400_000, 32_580_000])
  {
    var all: seq<int>, left: seq<int> :=
      [32_400_000, 32_460_000, 32_520_000, 32_580_000], [32_580_000, 32_460_000, 32_520_000];
    var first: nat, second: nat := 9539791489172170984, 3173417380409096424;
    assert first % 4 == 0 && second % 3 == 0;
    assert SwapRemove(all, 0) == left;
    NothingTooClose(left, 32_400_000, 60_000);
    OneDrawTakes(all, first, [second], 60_000);
    OneDrawTakes(left, second, [], 60_000);
    assert [second] + [] == [second] && [first] + [second] == [first, second];
    hide PickDay, Retain, SwapRemove;
    assert PickDay(left, [second], 60_000) == Picked([32_580_000]) by {
      NoDrawTakesNothing();
    }
  }

  lemma NoDrawTakesNothing()
    ensures forall left, spacingMs :: PickDay(left, [], spacingMs) == Picked([])
  {
  }

  lemma DayOfTen()
    ensures var day := SelectDay(XORSHIFT, FOUR_MINUTES, 0, 0, 2, [], 10);
            day.Day? && day.instants == [32_400_000, 32_580_000]
  {
    FourCandidates();
    TwoDrawsOfTen();
    TwoPicksOfFour();
    hide CandidatesForDate, Outputs, PickDay, XORSHIFT;
    assert Wanted(XORSHIFT, FOUR_MINUTES, 0, 2, 10) == (2, 10);
    assert WeekdayOf(0) in FOUR_MINUTES.allowedDays;
    assert CountOn(FOUR_MINUTES.timezone, [], 0) == 0;
  }

  /** A selection worked out by hand: from the seed 10, two of those minutes are 09:00 and 09:03 of the first day. */
  lemma KnownSelection()
    ensures SelectSlots(XORSHIFT, FOUR_MINUTES, 0, 2, [], Seed(10)).selection
            == Selected([PlannedSlot(32_400_000, 0), PlannedSlot(32_580_000, 0)])
  {
    DayOfTen();
    hide SelectDay, XORSHIFT;
    var none: seq<int> := [];
    assert none + Times([]) == none;
    assert FOUR_MINUTES.timezone.DateOf(0) == Some(0);
    var slots := OnDate([32_400_000, 32_580_000], 0);
    assert slots == [PlannedSlot(32_400_000, 0), PlannedSlot(32_580_000, 0)];
    assert [] + slots == slots;
    assert SortSlots(slots[1..]) == slots[1..];
    assert SortSlots(slots) == slots;
  }

  /** Taking an element out moves the last one into its place, and leaves every other where it was. */
  lemma RemovalKeepsPlaces(candidates: seq<int>, index: nat)
    requires index < |candidates|
    ensures var left := SwapRemove(candidates, index);
            && |left| == |candidates| - 1
            && forall k | 0 <= k < |left| :: left[k] == candidates[if k == index then |candidates| - 1 else k]
  {
  }

  /** Each candidate goes or stays on its own. */
  lemma RetainedOnItsOwn(candidate: int, others: seq<int>, taken: int, spacingMs: int)
    ensures Retain([candidate] + others, taken, spacingMs)
         == (if candidate - taken >= spacingMs || taken - candidate >= spacingMs then [candidate] else [])
            + Retain(others, taken, spacingMs)
  {
    assert ([candidate] + others)[1..] == others;
  }

  /** And those that stay keep their order. */
  lemma {:induction false} RetainedInOrder(first: seq<int>, second: seq<int>, taken: int, spacingMs: int)
    ensures Retain(first + second, taken, spacingMs) == Retain(first, taken, spacingMs) + Retain(second, taken, spacingMs)
  {
    hide Retain;
    if first == [] {
      assert first + second == second;
      NothingRetained(taken, spacingMs);
    } else {
      RetainedInOrder(first[1..], second, taken, spacingMs);
      RetainedOnItsOwn(first[0], first[1..], taken, spacingMs);
      RetainedOnItsOwn(first[0], first[1..] + second, taken, spacingMs);
      assert [first[0]] + first[1..] == first && [first[0]] + (first[1..] + second) == first + second;
    }
  }

  lemma NothingRetained(taken: int, spacingMs: int)
    ensures Retain([], taken, spacingMs) == []
  {
  }

  /**
   * A day aims, depending on the draw, at every number from what is left of the daily minimum up to what is
   * left of the maximum, neither beyond what is still asked for, and at no other.
   */
  lemma DayAimsExactly(policy: SchedulePolicy, existingToday: nat, remaining: nat, wanted: nat)
    requires existingToday < policy.dailyReleases.maximum
    ensures var range := policy.dailyReleases;
            (exists source: Source<int>, state: int :: Wanted(source, policy, existingToday, remaining, state).0 == wanted)
            <==> && wanted <= remaining && wanted + existingToday <= range.maximum
                 && (wanted == remaining || wanted + existingToday >= range.minimum)
  {
    var range := policy.dailyReleases;
    if wanted <= remaining && wanted + existingToday <= range.maximum
       && (wanted == remaining || wanted + existingToday >= range.minimum) {
      var lower := Min(Minus(range.minimum, existingToday), Min(range.maximum - existingToday, remaining));
      var draw: nat := wanted - lower;
      if remaining > Minus(range.minimum, existingToday) {
        SmallRemainder(draw, Min(range.maximum - existingToday, remaining) - lower + 1);
      }
      assert Wanted(Scripted([draw]), policy, existingToday, remaining, 0).0 == wanted;
    }
  }

  // ------------------------------------------------------------ refused policies

  /** What is wrong with the settings of a policy, apart from its daily maximum: the first of these, in this order. */
  ghost predicate Wrong(
    allowedDays: set<Weekday>, windows: seq<DailyWindow>, spacing: nat, behavior: MissedWindowBehavior, error: PolicyError)
  {
    match error
    case NoAllowedDays => allowedDays == {}
    case NoWindows => allowedDays != {} && windows == []
    case TooManyWindows => allowedDays != {} && |windows| > 32
    case InvalidMinimumSpacing(minutes) =>
      allowedDays != {} && 1 <= |windows| <= 32 && minutes == spacing && (spacing == 0 || spacing > 1440)
    case OverlappingWindows =>
      allowedDays != {} && 1 <= |windows| <= 32 && 1 <= spacing <= 1440 && !NonOverlapping(windows)
    case InvalidCatchUpLimit(limit) =>
      && allowedDays != {} && 1 <= |windows| <= 32 && 1 <= spacing <= 1440 && NonOverlapping(windows)
      && behavior == CatchUp(limit) && (limit == 0 || limit > 24)
    case _ => false
  }

  /**
   * A refused policy is told what is wrong with it, and how many releases one of its days can hold where the
   * daily maximum is more than that.
   */
  lemma PolicyRefusalsAreExact(
    timezone: Zone, allowedDays: set<Weekday>, windows: seq<DailyWindow>, range: DailyReleaseRange,
    spacing: nat, behavior: MissedWindowBehavior, error: PolicyError)
    ensures NewPolicy(timezone, allowedDays, windows, range, spacing, behavior) == Err(error) <==>
      || Wrong(allowedDays, windows, spacing, behavior, error)
      || (&& WellFormed(allowedDays, windows, spacing, behavior)
          && error.DailyLimitExceedsWindowCapacity? && error.maximum == range.maximum && error.capacity < range.maximum
          && FitsOneDay(error.capacity, windows, spacing) && !FitsOneDay(error.capacity + 1, windows, spacing))
  {
    var sorted := SortWindows(windows);
    hide SortWindows, GreedyMinutes, NonOverlapping, FitsOneDay, SortedByStart;
    SortWindowsSorts(windows);
    SortingKeepsOverlap(windows);
    NeighboursDecide(sorted);
    if 1 <= spacing <= 1440 && Disjoint(sorted) {
      var capacity := |GreedyMinutes(sorted, 0, spacing)|;
      CapacityIsLargest(windows, sorted, spacing, capacity);
      if error.DailyLimitExceedsWindowCapacity? {
        CapacityIsLargest(windows, sorted, spacing, error.capacity);
      }
    }
  }

  lemma CapacityIsLargest(windows: seq<DailyWindow>, sorted: seq<DailyWindow>, spacing: nat, count: nat)
    requires spacing > 0 && Disjoint(sorted) && forall w :: w in windows <==> w in sorted
    ensures count == |GreedyMinutes(sorted, 0, spacing)|
            <==> FitsOneDay(count, windows, spacing) && !FitsOneDay(count + 1, windows, spacing)
  {
    hide GreedyMinutes, FitsOneDay;
    CapacityIsExact(sorted, spacing, count);
    CapacityIsExact(sorted, spacing, count + 1);
    SamePlans(windows, sorted, count, spacing);
    SamePlans(windows, sorted, count + 1, spacing);
  }

  // ------------------------------------------------------------------- overrides

  /** Each setting is the override's if it has one, and the policy's if it has none. */
  ghost predicate Combined(policy: SchedulePolicy, over: PolicyOverride, settings: SchedulePolicy) {
    && settings.timezone == (match over.timezone case Some(own) => own case None => policy.timezone)
    && settings.allowedDays == (match over.allowedDays case Some(own) => own case None => policy.allowedDays)
    && settings.windows == (match over.windows case Some(own) => own case None => policy.windows)
    && settings.dailyReleases == (match over.dailyReleases case Some(own) => own case None => policy.dailyReleases)
    && settings.minimumSpacingMinutes ==
         (match over.minimumSpacingMinutes case Some(own) => own case None => policy.minimumSpacingMinutes)
    && settings.missedWindowBehavior ==
         (match over.missedWindowBehavior case Some(own) => own case None => policy.missedWindowBehavior)
  }

  /**
   * An override replaces exactly the settings it names, and is accepted exactly when the settings make a policy
   * together: whatever contradicts in the combination refuses the override.
   */
  lemma OverrideReplacesWhatItNames(policy: SchedulePolicy, over: PolicyOverride, settings: SchedulePolicy)
    requires Combined(policy, over, settings)
    ensures var r := WithOverride(policy, over);
            && (r.Ok? <==>
                  && WellFormed(settings.allowedDays, settings.windows, settings.minimumSpacingMinutes,
                                settings.missedWindowBehavior)
                  && FitsOneDay(settings.dailyReleases.maximum, settings.windows, settings.minimumSpacingMinutes))
            && (r.Ok? ==>
                  && r.value == settings.(windows := r.value.windows)
                  && multiset(r.value.windows) == multiset(settings.windows) && SortedByStart(r.value.windows))
            && (r.Err? && !r.error.DailyLimitExceedsWindowCapacity? ==>
                  Wrong(settings.allowedDays, settings.windows, settings.minimumSpacingMinutes,
                        settings.missedWindowBehavior, r.error))
  {
    hide NewPolicy, WellFormed, FitsOneDay, SortedByStart, Wrong;
    PolicyAcceptedExactly(settings.timezone, settings.allowedDays, settings.windows, settings.dailyReleases,
                          settings.minimumSpacingMinutes, settings.missedWindowBehavior);
    var r := WithOverride(policy, over);
    if r.Err? {
      PolicyRefusalsAreExact(settings.timezone, settings.allowedDays, settings.windows, settings.dailyReleases,
                             settings.minimumSpacingMinutes, settings.missedWindowBehavior, r.error);
    }
  }

  // ------------------------------------------------------------- refused requests

  /** Another slot, not at the same instant, closer than the spacing. */
  predicate Crowded(policy: SchedulePolicy, requested: int, existing: seq<int>) {
    exists x | x in existing ::
      x != requested
      && requested - policy.minimumSpacingMinutes * 60_000 < x < requested + policy.minimumSpacingMinutes * 60_000
  }

  /** The whole minutes to the nearest slot that is not at the same instant. */
  ghost predicate NearestMinutes(requested: int, existing: seq<int>, minutes: int) {
    && (exists x | x in existing :: x != requested && Abs(x - requested) / 60_000 == minutes)
    && forall x | x in existing && x != requested :: minutes <= Abs(x - requested) / 60_000
  }

  /** On its day, at a whole minute, inside a window. */
  ghost predicate AtAnOpenMinute(policy: SchedulePolicy, requested: int, date: int) {
    requested % 60_000 == 0 && InWindow(policy.timezone, policy.windows, date, requested)
  }

  /** The rule that a request on this date breaks: the first of these, in this order. */
  ghost predicate Breaks(policy: SchedulePolicy, requested: int, notBefore: int, existing: seq<int>, date: int, error: PolicyError) {
    && requested >= 0
    && match error
       case RequestedTimeInPast => requested < notBefore
       case RequestedDayNotAllowed(weekday) =>
         notBefore <= requested && weekday == WeekdayOf(date) && weekday !in policy.allowedDays
       case RequestedTimeOutsideWindows =>
         && notBefore <= requested && WeekdayOf(date) in policy.allowedDays
         && !AtAnOpenMinute(policy, requested, date)
       case RequestedTimeTooClose(required, actual) =>
         && notBefore <= requested && WeekdayOf(date) in policy.allowedDays && AtAnOpenMinute(policy, requested, date)
         && Crowded(policy, requested, existing) && required == policy.minimumSpacingMinutes
         && NearestMinutes(requested, existing, actual)
       case RequestedDayIsFull(day, maximum) =>
         && notBefore <= requested && WeekdayOf(date) in policy.allowedDays && AtAnOpenMinute(policy, requested, date)
         && !Crowded(policy, requested, existing) && day == date && maximum == policy.dailyReleases.maximum
         && CountOn(policy.timezone, Others(existing, requested), date) >= maximum
       case _ => false
  }

  lemma CrowdedByGap(policy: SchedulePolicy, requested: int, existing: seq<int>)
    ensures var gap := NearestGap(Others(existing, requested), requested);
            Crowded(policy, requested, existing) <==> gap.Some? && gap.value < policy.SpacingMs()
  {
    var others := Others(existing, requested);
    NearestGapIsNearest(others, requested);
    hide NearestGap, Others;
    var gap := NearestGap(others, requested);
    if gap.Some? {
      var x :| x in others && Abs(x - requested) == gap.value;
      assert x in existing && x != requested;
    }
    if Crowded(policy, requested, existing) {
      var x :| x in existing && x != requested
        && requested - policy.minimumSpacingMinutes * 60_000 < x < requested + policy.minimumSpacingMinutes * 60_000;
      assert x in others && Abs(x - requested) < policy.SpacingMs();
    }
  }

  lemma DivideBoth(smaller: nat, larger: nat)
    requires smaller <= larger
    ensures smaller / 60_000 <= larger / 60_000
  {
  }

  lemma NearestByGap(requested: int, existing: seq<int>, minutes: int)
    requires NearestGap(Others(existing, requested), requested).Some?
    ensures NearestMinutes(requested, existing, minutes)
            <==> minutes == NearestGap(Others(existing, requested), requested).value / 60_000
  {
    var others := Others(existing, requested);
    NearestGapIsNearest(others, requested);
    hide NearestGap, Others;
    var gap := NearestGap(others, requested).value;
    var nearest :| nearest in others && Abs(nearest - requested) == gap;
    assert nearest in existing && nearest != requested;
    forall x | x in existing && x != requested ensures gap / 60_000 <= Abs(x - requested) / 60_000 {
      assert x in others;
      DivideBoth(gap, Abs(x - requested));
    }
  }

  /** The rules a request on this date is held to, in the order they are checked. */
  lemma RequestBreaksExactly(policy: SchedulePolicy, requested: int, notBefore: int, existing: seq<int>, date: int, error: PolicyError)
    requires policy.Valid() && requested >= 0 && policy.timezone.DateOf(requested) == Some(date)
    ensures (ValidateRequestedSlot(policy, requested, notBefore, existing) == Err(error) && error != SchedulingHorizonExceeded)
            <==> Breaks(policy, requested, notBefore, existing, date, error)
                 && (CandidatesForDate(policy, date, requested, [], policy.SpacingMs()).Ok?
                     || error.RequestedTimeInPast? || error.RequestedDayNotAllowed?)
  {
    var spacingMs := policy.SpacingMs();
    ListableRegardless(policy.timezone, policy.windows, date, requested, [], requested, [], spacingMs);
    if CandidatesForDate(policy, date, requested, [], spacingMs).Ok? {
      CandidatesExactly(policy, date, requested, [], spacingMs, requested);
    }
    CrowdedByGap(policy, requested, existing);
    if error.RequestedTimeTooClose? && NearestGap(Others(existing, requested), requested).Some? {
      NearestByGap(requested, existing, error.actualMinutes);
    }
    hide CandidatesForDate, InWindow, Others, NearestGap, CountOn, Crowded, NearestMinutes, WeekdayOf;
  }

  lemma BadTimestamp(policy: SchedulePolicy, requested: int, notBefore: int, existing: seq<int>)
    requires policy.Valid()
    ensures ValidateRequestedSlot(policy, requested, notBefore, existing) == Err(InvalidSchedulingTimestamp(requested))
            <==> requested < 0 || policy.timezone.DateOf(requested).None?
  {
    if requested >= 0 && policy.timezone.DateOf(requested).Some? {
      var date := policy.timezone.DateOf(requested).value;
      ListableRegardless(policy.timezone, policy.windows, date, requested, [], requested, [], policy.SpacingMs());
    }
  }

  /** A refused request names the rule it breaks; only a calendar that ends refuses without one. */
  lemma RequestRefusalsAreExact(policy: SchedulePolicy, requested: int, notBefore: int, existing: seq<int>, error: PolicyError)
    requires policy.Valid()
    ensures ValidateRequestedSlot(policy, requested, notBefore, existing) == Err(InvalidSchedulingTimestamp(requested))
            <==> requested < 0 || policy.timezone.DateOf(requested).None?
    ensures policy.timezone.DateOf(requested).Some? && requested >= 0 ==>
      var date := policy.timezone.DateOf(requested).value;
      (ValidateRequestedSlot(policy, requested, notBefore, existing) == Err(error) && error != SchedulingHorizonExceeded)
      <==> Breaks(policy, requested, notBefore, existing, date, error)
           && (CandidatesForDate(policy, date, requested, [], policy.SpacingMs()).Ok?
               || error.RequestedTimeInPast? || error.RequestedDayNotAllowed?)
  {
    hide ValidateRequestedSlot, Breaks;
    BadTimestamp(policy, requested, notBefore, existing);
    if requested >= 0 && policy.timezone.DateOf(requested).Some? {
      RequestBreaksExactly(policy, requested, notBefore, existing, policy.timezone.DateOf(requested).value, error);
    }
  }
}
