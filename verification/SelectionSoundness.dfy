/** What every successful selection guarantees, for every seed and every time zone. */
module SelectionSoundness {
  import opened Wrappers
  import opened SchedulePolicies
  import opened Candidates
  import opened PickLoop
  import opened SlotGenerators

  /** The rules one slot must obey on its own and against the slots that already existed. */
  ghost predicate SlotAllowed(policy: SchedulePolicy, notBefore: int, existing: seq<int>, slot: PlannedSlot) {
    && slot.selectedAt % MINUTE_MS == 0
    && notBefore <= slot.selectedAt
    && WeekdayOf(slot.localDate) in policy.allowedDays
    && InWindow(policy.timezone, policy.windows, slot.localDate, slot.selectedAt)
    && Clear(slot.selectedAt, existing, policy.SpacingMs())
    && CandidatesForDate(policy, slot.localDate, 0, [], policy.SpacingMs()).Ok?
  }

  ghost predicate AllAllowed(policy: SchedulePolicy, notBefore: int, existing: seq<int>, slots: seq<PlannedSlot>) {
    forall slot | slot in slots :: SlotAllowed(policy, notBefore, existing, slot)
  }

  lemma SpreadAppend(a: seq<int>, b: seq<int>, gap: int)
    requires Spread(a, gap) && Spread(b, gap)
    requires forall x | x in b :: Clear(x, a, gap)
    ensures Spread(a + b, gap)
  {
    var all := a + b;
    forall i, j | 0 <= i < j < |all| ensures Abs(all[i] - all[j]) >= gap {
      if i < |a| <= j {
        assert b[j - |a|] in b && a[i] in a;
      } else if j < |a| {
        assert Abs(a[i] - a[j]) >= gap;
      } else {
        assert Abs(b[i - |a|] - b[j - |a|]) >= gap;
      }
    }
  }

  /** One day's picks obey every rule, and keep clear of everything occupied before them. */
  lemma DayIsSound<S>(
    source: Source<S>, policy: SchedulePolicy, date: int, notBefore: int, remaining: nat, occupied: seq<int>, state: S)
    requires policy.minimumSpacingMinutes > 0
    ensures var day := SelectDay(source, policy, date, notBefore, remaining, occupied, state);
            day.Day? ==>
              && Spread(day.instants, policy.SpacingMs())
              && AllAllowed(policy, notBefore, occupied, OnDate(day.instants, date))
  {
    var day := SelectDay(source, policy, date, notBefore, remaining, occupied, state);
    if day.Day? && day.instants != [] {
      var (wanted, drawn) := Wanted(source, policy, CountOn(policy.timezone, occupied, date), remaining, state);
      var candidates := CandidatesForDate(policy, date, notBefore, occupied, policy.SpacingMs()).value;
      PicksAreSpread(candidates, Outputs(source, drawn, Min(wanted, |candidates|)), policy.SpacingMs());
      ListableRegardless(policy.timezone, policy.windows, date, notBefore, occupied, 0, [], policy.SpacingMs());
      forall slot | slot in OnDate(day.instants, date) ensures SlotAllowed(policy, notBefore, occupied, slot) {
        assert slot.selectedAt in day.instants;
        CandidatesExactly(policy, date, notBefore, occupied, policy.SpacingMs(), slot.selectedAt);
      }
    }
  }

  lemma ClearOfBoth(instant: int, a: seq<int>, b: seq<int>, gap: int)
    ensures Clear(instant, a + b, gap) <==> Clear(instant, a, gap) && Clear(instant, b, gap)
  {
    assert forall x | x in a :: x in a + b;
    assert forall x | x in b :: x in a + b;
  }

  lemma MoreAllowed(
    policy: SchedulePolicy, notBefore: int, existing: seq<int>, selected: seq<PlannedSlot>, instants: seq<int>, date: int)
    requires AllAllowed(policy, notBefore, existing, selected)
    requires AllAllowed(policy, notBefore, existing + Times(selected), OnDate(instants, date))
    ensures AllAllowed(policy, notBefore, existing, selected + OnDate(instants, date))
  {
    forall slot | slot in OnDate(instants, date) ensures SlotAllowed(policy, notBefore, existing, slot) {
      assert SlotAllowed(policy, notBefore, existing + Times(selected), slot);
      ClearOfBoth(slot.selectedAt, existing, Times(selected), policy.SpacingMs());
    }
  }

  lemma MoreSpread(
    policy: SchedulePolicy, notBefore: int, existing: seq<int>, selected: seq<PlannedSlot>, instants: seq<int>, date: int)
    requires AllAllowed(policy, notBefore, existing + Times(selected), OnDate(instants, date))
    requires Spread(Times(selected), policy.SpacingMs()) && Spread(instants, policy.SpacingMs())
    ensures Spread(Times(selected + OnDate(instants, date)), policy.SpacingMs())
  {
    forall x | x in instants ensures Clear(x, Times(selected), policy.SpacingMs()) {
      var i :| 0 <= i < |instants| && instants[i] == x;
      var slot := OnDate(instants, date)[i];
      assert slot in OnDate(instants, date) && slot.selectedAt == x;
      assert SlotAllowed(policy, notBefore, existing + Times(selected), slot);
      ClearOfBoth(x, existing, Times(selected), policy.SpacingMs());
    }
    SpreadAppend(Times(selected), instants, policy.SpacingMs());
    TimesOfMore(selected, instants, date, existing);
  }

  /** What the selection made so far guarantees. */
  ghost predicate Sound(policy: SchedulePolicy, notBefore: int, existing: seq<int>, slots: seq<PlannedSlot>) {
    AllAllowed(policy, notBefore, existing, slots) && Spread(Times(slots), policy.SpacingMs())
  }

  /** One more day keeps what was selected before it and stays sound. */
  lemma DayExtends<S>(
    source: Source<S>, policy: SchedulePolicy, date: int, notBefore: int, remaining: nat, existing: seq<int>,
    selected: seq<PlannedSlot>, state: S, day: DayRun<S>)
    requires policy.minimumSpacingMinutes > 0 && Sound(policy, notBefore, existing, selected)
    requires day == SelectDay(source, policy, date, notBefore, remaining, existing + Times(selected), state) && day.Day?
    ensures Sound(policy, notBefore, existing, selected + OnDate(day.instants, date))
  {
    DayIsSound(source, policy, date, notBefore, remaining, existing + Times(selected), state);
    MoreAllowed(policy, notBefore, existing, selected, day.instants, date);
    MoreSpread(policy, notBefore, existing, selected, day.instants, date);
  }

  lemma {:induction false} WalkIsSound<S>(
    source: Source<S>, policy: SchedulePolicy, notBefore: int, requested: nat, existing: seq<int>,
    date: int, days: nat, selected: seq<PlannedSlot>, state: S)
    requires policy.minimumSpacingMinutes > 0 && |selected| <= requested
    requires Sound(policy, notBefore, existing, selected)
    ensures var r := SelectDays(source, policy, notBefore, requested, existing, date, days, selected, state).selection;
            r.Selected? ==> |r.slots| == requested && Sound(policy, notBefore, existing, r.slots)
    decreases days
  {
    hide Sound, SelectDay;
    if |selected| < requested && days > 0 {
      var occupied := existing + Times(selected);
      var day := SelectDay(source, policy, date, notBefore, requested - |selected|, occupied, state);
      NextDay(source, policy, notBefore, requested, existing, date, days, selected, state, occupied, day);
      if day.Day? && date < policy.timezone.lastDate {
        var more := selected + OnDate(day.instants, date);
        DayExtends(source, policy, date, notBefore, requested - |selected|, existing, selected, state, day);
        WalkIsSound(source, policy, notBefore, requested, existing, date + 1, days - 1, more, day.state);
      }
    }
  }

  lemma {:induction false} InsertKeepsSpaced(slot: PlannedSlot, sorted: seq<PlannedSlot>, gap: int)
    requires gap > 0 && SpacedBy(Times(sorted), gap) && Clear(slot.selectedAt, Times(sorted), gap)
    ensures SpacedBy(Times(InsertSlot(slot, sorted)), gap)
  {
    if sorted != [] && slot.selectedAt > sorted[0].selectedAt {
      var rest := sorted[1..];
      assert Times(sorted)[1..] == Times(rest);
      assert sorted[0].selectedAt in Times(sorted);
      assert forall t | t in Times(rest) :: t in Times(sorted);
      assert SpacedBy(Times(rest), gap) by {
        forall i | 0 <= i < |rest| - 1 ensures Times(rest)[i] + gap <= Times(rest)[i + 1] {
          assert Times(sorted)[i + 1] + gap <= Times(sorted)[i + 1 + 1];
        }
      }
      InsertKeepsSpaced(slot, rest, gap);
      var tail := InsertSlot(slot, rest);
      assert tail[0] == slot || (rest != [] && tail[0] == rest[0]);
      if rest != [] {
        assert Times(sorted)[0] + gap <= Times(sorted)[0 + 1];
      }
      Prepended(sorted[0], tail, gap);
    } else {
      if sorted != [] {
        assert sorted[0].selectedAt in Times(sorted);
      }
      Prepended(slot, sorted, gap);
    }
  }

  lemma Prepended(slot: PlannedSlot, rest: seq<PlannedSlot>, gap: int)
    requires SpacedBy(Times(rest), gap)
    requires rest != [] ==> slot.selectedAt + gap <= rest[0].selectedAt
    ensures SpacedBy(Times([slot] + rest), gap)
  {
    var all := Times([slot] + rest);
    forall i | 0 <= i < |all| - 1 ensures all[i] + gap <= all[i + 1] {
      if i > 0 {
        assert Times(rest)[i - 1] + gap <= Times(rest)[i - 1 + 1];
      }
    }
  }

  lemma SpreadRest(slots: seq<PlannedSlot>, gap: int)
    requires slots != [] && Spread(Times(slots), gap)
    ensures Spread(Times(slots[1..]), gap)
    ensures forall slot | slot in slots[1..] :: Abs(slots[0].selectedAt - slot.selectedAt) >= gap
  {
    var times, rest := Times(slots), slots[1..];
    forall i, j | 0 <= i < j < |rest| ensures Abs(Times(rest)[i] - Times(rest)[j]) >= gap {
      assert Abs(times[i + 1] - times[j + 1]) >= gap;
    }
    forall slot | slot in rest ensures Abs(slots[0].selectedAt - slot.selectedAt) >= gap {
      var j :| 0 <= j < |rest| && rest[j] == slot;
      assert Abs(times[0] - times[j + 1]) >= gap;
    }
  }

  lemma ClearOfSlots(instant: int, slots: seq<PlannedSlot>, gap: int)
    requires forall slot | slot in slots :: Abs(instant - slot.selectedAt) >= gap
    ensures Clear(instant, Times(slots), gap)
  {
    forall t | t in Times(slots) ensures Abs(instant - t) >= gap {
      var i :| 0 <= i < |slots| && Times(slots)[i] == t;
      assert slots[i] in slots;
    }
  }

  lemma {:induction false} SortingSpaces(slots: seq<PlannedSlot>, gap: int)
    requires gap > 0 && Spread(Times(slots), gap)
    ensures SpacedBy(Times(SortSlots(slots)), gap)
  {
    if slots != [] {
      SpreadRest(slots, gap);
      SortingSpaces(slots[1..], gap);
      ClearOfSlots(slots[0].selectedAt, SortSlots(slots[1..]), gap);
      InsertKeepsSpaced(slots[0], SortSlots(slots[1..]), gap);
    }
  }

  /** Every successful selection has exactly the requested number of instants, in increasing order at
      least the spacing apart, each a whole minute, not too early, inside a window on an allowed day,
      and at least the spacing away from every slot that already existed. */
  lemma SelectionIsSound<S>(
    source: Source<S>, policy: SchedulePolicy, notBefore: int, requested: nat, existing: seq<int>, state: S)
    requires policy.Valid()
    ensures var r := SelectSlots(source, policy, notBefore, requested, existing, state).selection;
            r.Selected? ==>
              && |r.slots| == requested
              && SpacedBy(Times(r.slots), policy.SpacingMs())
              && AllAllowed(policy, notBefore, existing, r.slots)
  {
    if requested > 0 && notBefore >= 0 && policy.timezone.DateOf(notBefore).Some? {
      var date := policy.timezone.DateOf(notBefore).value;
      WalkIsSound(source, policy, notBefore, requested, existing, date, MAX_SCHEDULING_HORIZON_DAYS, [], state);
      var walked := SelectDays(source, policy, notBefore, requested, existing, date, MAX_SCHEDULING_HORIZON_DAYS, [], state);
      if walked.selection.Selected? {
        SortingSpaces(walked.selection.slots, policy.SpacingMs());
      }
    }
  }

  // ------------------------------------------------------ the daily maximum

  lemma {:induction false} CountOnAppend(zone: Zone, a: seq<int>, b: seq<int>, date: int)
    ensures CountOn(zone, a + b, date) == CountOn(zone, a, date) + CountOn(zone, b, date)
  {
    if a == [] {
      assert a + b == b;
    } else {
      assert (a + b)[1..] == a[1..] + b;
      CountOnAppend(zone, a[1..], b, date);
    }
  }

  lemma {:induction false} CountOnNone(zone: Zone, instants: seq<int>, date: int)
    requires forall x | x in instants :: zone.DateOf(x) != Some(date)
    ensures CountOn(zone, instants, date) == 0
  {
    if instants != [] {
      assert instants[0] in instants;
      CountOnNone(zone, instants[1..], date);
    }
  }

  lemma {:induction false} CountOnAll(zone: Zone, instants: seq<int>, date: int)
    requires forall x | x in instants :: zone.DateOf(x) == Some(date)
    ensures CountOn(zone, instants, date) == |instants|
  {
    if instants != [] {
      assert instants[0] in instants;
      CountOnAll(zone, instants[1..], date);
    }
  }

  lemma {:induction false} InsertKeepsCount(zone: Zone, slot: PlannedSlot, sorted: seq<PlannedSlot>, date: int)
    ensures CountOn(zone, Times(InsertSlot(slot, sorted)), date)
         == CountOn(zone, [slot.selectedAt], date) + CountOn(zone, Times(sorted), date)
  {
    if sorted == [] || slot.selectedAt <= sorted[0].selectedAt {
      assert Times(InsertSlot(slot, sorted)) == [slot.selectedAt] + Times(sorted);
      CountOnAppend(zone, [slot.selectedAt], Times(sorted), date);
    } else {
      InsertKeepsCount(zone, slot, sorted[1..], date);
      assert Times(InsertSlot(slot, sorted))[1..] == Times(InsertSlot(slot, sorted[1..]));
      assert Times(sorted)[1..] == Times(sorted[1..]);
    }
  }

  lemma {:induction false} SortingKeepsCount(zone: Zone, slots: seq<PlannedSlot>, date: int)
    ensures CountOn(zone, Times(SortSlots(slots)), date) == CountOn(zone, Times(slots), date)
  {
    if slots != [] {
      SortingKeepsCount(zone, slots[1..], date);
      InsertKeepsCount(zone, slots[0], SortSlots(slots[1..]), date);
      assert Times(slots) == [slots[0].selectedAt] + Times(slots[1..]);
      CountOnAppend(zone, [slots[0].selectedAt], Times(slots[1..]), date);
    }
  }

  /** No date that `added` touches holds more than the daily maximum, existing slots included. */
  ghost predicate WithinDailyMaximum(policy: SchedulePolicy, existing: seq<int>, added: seq<int>) {
    forall date: int :: CountOn(policy.timezone, added, date) > 0 ==>
      CountOn(policy.timezone, existing, date) + CountOn(policy.timezone, added, date) <= policy.dailyReleases.maximum
  }

  /** On a coherent zone a slot inside a date's window falls on that date. */
  lemma SlotFallsOnItsDate(policy: SchedulePolicy, notBefore: int, existing: seq<int>, slot: PlannedSlot)
    requires Coherent(policy.timezone) && SlotAllowed(policy, notBefore, existing, slot)
    ensures policy.timezone.DateOf(slot.selectedAt) == Some(slot.localDate)
  {
    var zone := policy.timezone;
    var w :| w in policy.windows
      && zone.InstantOf(slot.localDate, w.start).Some? && zone.InstantOf(slot.localDate, w.end).Some?
      && zone.InstantOf(slot.localDate, w.start).value <= slot.selectedAt < zone.InstantOf(slot.localDate, w.end).value;
  }

  /** A day's picks never exceed what its date still has room for. */
  lemma DayFitsRoom<S>(
    source: Source<S>, policy: SchedulePolicy, date: int, notBefore: int, remaining: nat, occupied: seq<int>, state: S)
    ensures var day := SelectDay(source, policy, date, notBefore, remaining, occupied, state);
            day.Day? && day.instants != [] ==>
              CountOn(policy.timezone, occupied, date) + |day.instants| <= policy.dailyReleases.maximum
  {
    var day := SelectDay(source, policy, date, notBefore, remaining, occupied, state);
    if day.Day? && day.instants != [] {
      var (wanted, drawn) := Wanted(source, policy, CountOn(policy.timezone, occupied, date), remaining, state);
      var candidates := CandidatesForDate(policy, date, notBefore, occupied, policy.SpacingMs()).value;
      PicksAreAsManyAsDraws(candidates, Outputs(source, drawn, Min(wanted, |candidates|)), policy.SpacingMs());
    }
  }

  lemma MoreWithinMaximum<S>(
    source: Source<S>, policy: SchedulePolicy, notBefore: int, remaining: nat, existing: seq<int>,
    date: int, selected: seq<PlannedSlot>, state: S, day: DayRun<S>)
    requires Coherent(policy.timezone) && policy.minimumSpacingMinutes > 0
    requires AllAllowed(policy, notBefore, existing, selected)
    requires forall slot | slot in selected :: slot.localDate < date
    requires WithinDailyMaximum(policy, existing, Times(selected))
    requires day == SelectDay(source, policy, date, notBefore, remaining, existing + Times(selected), state) && day.Day?
    ensures WithinDailyMaximum(policy, existing, Times(selected + OnDate(day.instants, date)))
  {
    var zone, occupied := policy.timezone, existing + Times(selected);
    DayIsSound(source, policy, date, notBefore, remaining, occupied, state);
    DayFitsRoom(source, policy, date, notBefore, remaining, occupied, state);
    TimesOfMore(selected, day.instants, date, existing);
    forall x | x in day.instants ensures zone.DateOf(x) == Some(date) {
      var i :| 0 <= i < |day.instants| && day.instants[i] == x;
      assert OnDate(day.instants, date)[i] in OnDate(day.instants, date);
      SlotFallsOnItsDate(policy, notBefore, occupied, OnDate(day.instants, date)[i]);
    }
    forall x | x in Times(selected) ensures zone.DateOf(x) != Some(date) {
      var i :| 0 <= i < |selected| && Times(selected)[i] == x;
      assert selected[i] in selected;
      SlotFallsOnItsDate(policy, notBefore, existing, selected[i]);
    }
    forall d: int | CountOn(zone, Times(selected) + day.instants, d) > 0
      ensures CountOn(zone, existing, d) + CountOn(zone, Times(selected) + day.instants, d) <= policy.dailyReleases.maximum {
      CountOnAppend(zone, Times(selected), day.instants, d);
      if d == date {
        CountOnAll(zone, day.instants, d);
        CountOnNone(zone, Times(selected), d);
        CountOnAppend(zone, existing, Times(selected), d);
      } else {
        CountOnNone(zone, day.instants, d);
      }
    }
  }

  /** What holds of the slots selected on dates before `date`. */
  ghost predicate Fits(policy: SchedulePolicy, notBefore: int, existing: seq<int>, date: int, slots: seq<PlannedSlot>) {
    && Sound(policy, notBefore, existing, slots)
    && (forall slot | slot in slots :: slot.localDate < date)
    && WithinDailyMaximum(policy, existing, Times(slots))
  }

  lemma FitsKeepsMaximum(policy: SchedulePolicy, notBefore: int, existing: seq<int>, date: int, slots: seq<PlannedSlot>)
    requires Fits(policy, notBefore, existing, date, slots)
    ensures WithinDailyMaximum(policy, existing, Times(slots))
  {
  }

  lemma DayStillFits<S>(
    source: Source<S>, policy: SchedulePolicy, date: int, notBefore: int, remaining: nat, existing: seq<int>,
    selected: seq<PlannedSlot>, state: S, day: DayRun<S>)
    requires Coherent(policy.timezone) && policy.minimumSpacingMinutes > 0
    requires Fits(policy, notBefore, existing, date, selected)
    requires day == SelectDay(source, policy, date, notBefore, remaining, existing + Times(selected), state) && day.Day?
    ensures Fits(policy, notBefore, existing, date + 1, selected + OnDate(day.instants, date))
  {
    DayExtends(source, policy, date, notBefore, remaining, existing, selected, state, day);
    MoreWithinMaximum(source, policy, notBefore, remaining, existing, date, selected, state, day);
  }

  lemma {:induction false} WalkFits<S>(
    source: Source<S>, policy: SchedulePolicy, notBefore: int, requested: nat, existing: seq<int>,
    date: int, days: nat, selected: seq<PlannedSlot>, state: S)
    requires Coherent(policy.timezone) && policy.minimumSpacingMinutes > 0 && |selected| <= requested
    requires Fits(policy, notBefore, existing, date, selected)
    ensures var r := SelectDays(source, policy, notBefore, requested, existing, date, days, selected, state).selection;
            r.Selected? ==> WithinDailyMaximum(policy, existing, Times(r.slots))
    decreases days
  {
    hide Fits, WithinDailyMaximum, SelectDay, Coherent;
    if |selected| == requested {
      FitsKeepsMaximum(policy, notBefore, existing, date, selected);
    } else if days > 0 {
      var occupied := existing + Times(selected);
      var day := SelectDay(source, policy, date, notBefore, requested - |selected|, occupied, state);
      NextDay(source, policy, notBefore, requested, existing, date, days, selected, state, occupied, day);
      if day.Day? && date < policy.timezone.lastDate {
        var more := selected + OnDate(day.instants, date);
        DayStillFits(source, policy, date, notBefore, requested - |selected|, existing, selected, state, day);
        WalkFits(source, policy, notBefore, requested, existing, date + 1, days - 1, more, day.state);
      }
    }
  }

  /** On a coherent zone, no day a selection adds to exceeds the daily maximum, counting the slots
      that already existed. */
  lemma SelectionWithinDailyMaximum<S>(
    source: Source<S>, policy: SchedulePolicy, notBefore: int, requested: nat, existing: seq<int>, state: S)
    requires policy.Valid() && Coherent(policy.timezone)
    ensures var r := SelectSlots(source, policy, notBefore, requested, existing, state).selection;
            r.Selected? ==> WithinDailyMaximum(policy, existing, Times(r.slots))
  {
    if requested > 0 && notBefore >= 0 && policy.timezone.DateOf(notBefore).Some? {
      var date := policy.timezone.DateOf(notBefore).value;
      WalkFits(source, policy, notBefore, requested, existing, date, MAX_SCHEDULING_HORIZON_DAYS, [], state);
      var walked := SelectDays(source, policy, notBefore, requested, existing, date, MAX_SCHEDULING_HORIZON_DAYS, [], state);
      if walked.selection.Selected? {
        hide CountOn, SortSlots, SelectDays;
        forall d: int ensures CountOn(policy.timezone, Times(SortSlots(walked.selection.slots)), d)
                           == CountOn(policy.timezone, Times(walked.selection.slots), d) {
          SortingKeepsCount(policy.timezone, walked.selection.slots, d);
        }
      }
    }
  }

  /** A zone with a fixed offset is coherent, so the daily maximum holds in it. */
  lemma FixedOffsetIsCoherent(offsetMs: int, lastDate: int)
    ensures Coherent(FixedOffset(offsetMs, lastDate))
  {
  }
}
