/** Exactly when a whole selection can abort instead of answering. */
module SelectionAborts {
  import opened Wrappers
  import opened SchedulePolicies
  import opened Candidates
  import opened PickLoop
  import opened SlotGenerators
  import opened SelectionSoundness
  import opened SelectionCompleteness

  predicate HasRoom(policy: SchedulePolicy, date: int, occupied: seq<int>) {
    WeekdayOf(date) in policy.allowedDays && CountOn(policy.timezone, occupied, date) < policy.dailyReleases.maximum
  }

  function LeastWanted(policy: SchedulePolicy, existingToday: nat, remaining: nat): nat
    requires existingToday < policy.dailyReleases.maximum
  {
    Min(Minus(policy.dailyReleases.minimum, existingToday), MostWanted(policy, existingToday, remaining))
  }

  function MostWanted(policy: SchedulePolicy, existingToday: nat, remaining: nat): nat
    requires existingToday < policy.dailyReleases.maximum
  {
    Min(policy.dailyReleases.maximum - existingToday, remaining)
  }

  lemma WantedInRange<S>(source: Source<S>, policy: SchedulePolicy, existingToday: nat, remaining: nat, state: S)
    requires existingToday < policy.dailyReleases.maximum
    ensures var wanted := Wanted(source, policy, existingToday, remaining, state).0;
            LeastWanted(policy, existingToday, remaining) <= wanted <= MostWanted(policy, existingToday, remaining)
  {
  }

  /** The list of candidates a day with room draws from. */
  function Offered(policy: SchedulePolicy, date: int, notBefore: int, occupied: seq<int>): Result<seq<int>, PolicyError> {
    CandidatesForDate(policy, date, notBefore, occupied, policy.SpacingMs())
  }

  /** A day with room for more draws than the fewest that use its candidates up. */
  ghost predicate DayCanAbort(policy: SchedulePolicy, date: int, notBefore: int, remaining: nat, occupied: seq<int>) {
    policy.minimumSpacingMinutes > 0 && HasRoom(policy, date, occupied) &&
    var offered := Offered(policy, date, notBefore, occupied);
    && offered.Ok?
    && FewestPicks(Instants(offered.value), policy.SpacingMs())
       < MostDraws(policy, CountOn(policy.timezone, occupied, date), remaining, |offered.value|)
  }

  /** So many releases can be aimed for on this day, and these draws then yield these instants. */
  ghost predicate Plays(
    policy: SchedulePolicy, date: int, occupied: seq<int>, remaining: nat, candidates: seq<int>,
    wanted: nat, draws: seq<nat>)
  {
    HasRoom(policy, date, occupied) &&
    var existingToday := CountOn(policy.timezone, occupied, date);
    && LeastWanted(policy, existingToday, remaining) <= wanted <= MostWanted(policy, existingToday, remaining)
    && |draws| == Min(wanted, |candidates|)
  }

  /** Some draws make the day yield exactly these instants, in this order. */
  ghost predicate DayCanTake(
    policy: SchedulePolicy, date: int, notBefore: int, remaining: nat, occupied: seq<int>, instants: seq<int>)
  {
    if HasRoom(policy, date, occupied) then
      var offered := Offered(policy, date, notBefore, occupied);
      && offered.Ok?
      && exists wanted, draws | Plays(policy, date, occupied, remaining, offered.value, wanted, draws) ::
           PickDay(offered.value, draws, policy.SpacingMs()) == Picked(instants)
    else instants == []
  }

  /** From this date on, some choice of draws leads to a day that can abort. */
  ghost predicate LeadsToAbort(
    policy: SchedulePolicy, notBefore: int, requested: nat, existing: seq<int>,
    date: int, days: nat, selected: seq<PlannedSlot>)
    decreases days
  {
    && |selected| < requested && days > 0
    && var remaining, occupied := requested - |selected|, existing + Times(selected);
       || DayCanAbort(policy, date, notBefore, remaining, occupied)
       || (&& date < policy.timezone.lastDate
           && exists instants | DayCanTake(policy, date, notBefore, remaining, occupied, instants) ::
                && |selected| + |instants| <= requested
                && LeadsToAbort(policy, notBefore, requested, existing, date + 1, days - 1,
                                selected + OnDate(instants, date)))
  }

  // --------------------------------------------------- an abort is led up to

  lemma DayTakesWhatItCan<S>(
    source: Source<S>, policy: SchedulePolicy, date: int, notBefore: int, remaining: nat, occupied: seq<int>, state: S)
    requires policy.minimumSpacingMinutes > 0
    ensures var day := SelectDay(source, policy, date, notBefore, remaining, occupied, state);
            && (day.DayRanDry? ==> DayCanAbort(policy, date, notBefore, remaining, occupied))
            && (day.Day? ==> DayCanTake(policy, date, notBefore, remaining, occupied, day.instants))
  {
    hide PickDay, CandidatesForDate, FewestPicks;
    var day := SelectDay(source, policy, date, notBefore, remaining, occupied, state);
    if day.DayRanDry? {
      AbortNeedsTooManyDraws(source, policy, date, notBefore, remaining, occupied, state);
    } else if day.Day? && HasRoom(policy, date, occupied) {
      var existingToday, offered := CountOn(policy.timezone, occupied, date), Offered(policy, date, notBefore, occupied);
      WantedInRange(source, policy, existingToday, remaining, state);
      var (wanted, drawn) := Wanted(source, policy, existingToday, remaining, state);
      assert Plays(policy, date, occupied, remaining, offered.value, wanted,
                   Outputs(source, drawn, Min(wanted, |offered.value|)));
    }
  }

  lemma {:induction false} AbortIsLedUpTo<S>(
    source: Source<S>, policy: SchedulePolicy, notBefore: int, requested: nat, existing: seq<int>,
    date: int, days: nat, selected: seq<PlannedSlot>, state: S)
    requires policy.minimumSpacingMinutes > 0 && |selected| <= requested
    requires SelectDays(source, policy, notBefore, requested, existing, date, days, selected, state).selection.Aborted?
    ensures LeadsToAbort(policy, notBefore, requested, existing, date, days, selected)
    decreases days
  {
    hide SelectDay, DayCanAbort, DayCanTake;
    var remaining, occupied := requested - |selected|, existing + Times(selected);
    var day := SelectDay(source, policy, date, notBefore, remaining, occupied, state);
    NextDay(source, policy, notBefore, requested, existing, date, days, selected, state, occupied, day);
    DayTakesWhatItCan(source, policy, date, notBefore, remaining, occupied, state);
    if day.Day? {
      AbortIsLedUpTo(source, policy, notBefore, requested, existing, date + 1, days - 1,
                     selected + OnDate(day.instants, date), day.state);
    }
  }

  // ------------------------------------------- and what leads up can be drawn

  /** The numbers a source must give for a day to aim for `wanted` releases and draw `draws`. */
  function Part(policy: SchedulePolicy, existingToday: nat, remaining: nat, wanted: nat, draws: seq<nat>): seq<nat>
    requires existingToday < policy.dailyReleases.maximum
    requires wanted >= LeastWanted(policy, existingToday, remaining)
  {
    if remaining <= Minus(policy.dailyReleases.minimum, existingToday) then draws
    else [wanted - LeastWanted(policy, existingToday, remaining)] + draws
  }

  lemma {:induction false} ScriptAdvances(script: seq<nat>, from: nat, count: nat)
    ensures AdvanceBy(Scripted(script), from, count) == from + count
    decreases count
  {
    if count > 0 {
      ScriptAdvances(script, from + 1, count - 1);
    }
  }

  lemma PartIsWanted(
    policy: SchedulePolicy, existingToday: nat, remaining: nat, wanted: nat, draws: seq<nat>,
    before: seq<nat>, after: seq<nat>)
    requires existingToday < policy.dailyReleases.maximum
    requires LeastWanted(policy, existingToday, remaining) <= wanted <= MostWanted(policy, existingToday, remaining)
    ensures var part := Part(policy, existingToday, remaining, wanted, draws);
            var script := before + part + after;
            var (aimed, drawn) := Wanted(Scripted(script), policy, existingToday, remaining, |before|);
            && aimed == wanted && drawn == |before| + |part| - |draws|
            && Outputs(Scripted(script), drawn, |draws|) == draws
            && AdvanceBy(Scripted(script), drawn, |draws|) == |before| + |part|
  {
    var part := Part(policy, existingToday, remaining, wanted, draws);
    var script := before + part + after;
    var drawn := |before| + |part| - |draws|;
    if remaining > Minus(policy.dailyReleases.minimum, existingToday) {
      var least := LeastWanted(policy, existingToday, remaining);
      SmallRemainder(wanted - least, MostWanted(policy, existingToday, remaining) - least + 1);
      assert script[|before|] == wanted - least;
    }
    ScriptIsRead(script, drawn, |draws|);
    ScriptAdvances(script, drawn, |draws|);
    assert script[drawn..drawn + |draws|] == draws;
  }

  /** Whatever comes before and after it in the script, the part makes the day draw just that. */
  lemma PartPlays(
    policy: SchedulePolicy, date: int, notBefore: int, remaining: nat, occupied: seq<int>,
    wanted: nat, draws: seq<nat>, before: seq<nat>, after: seq<nat>)
    requires Offered(policy, date, notBefore, occupied).Ok?
    requires Plays(policy, date, occupied, remaining, Offered(policy, date, notBefore, occupied).value, wanted, draws)
    ensures var part := Part(policy, CountOn(policy.timezone, occupied, date), remaining, wanted, draws);
            SelectDay(Scripted(before + part + after), policy, date, notBefore, remaining, occupied, |before|)
            == match PickDay(Offered(policy, date, notBefore, occupied).value, draws, policy.SpacingMs())
               case RanDry => DayRanDry
               case Picked(instants) => Day(|before| + |part|, instants)
  {
    hide PickDay, CandidatesForDate, Outputs, AdvanceBy, Wanted;
    PartIsWanted(policy, CountOn(policy.timezone, occupied, date), remaining, wanted, draws, before, after);
  }

  /** A part of a script that makes this day abort. */
  lemma AbortingPart(
    policy: SchedulePolicy, date: int, notBefore: int, remaining: nat, occupied: seq<int>, before: seq<nat>)
    returns (part: seq<nat>)
    requires DayCanAbort(policy, date, notBefore, remaining, occupied)
    ensures SelectDay(Scripted(before + part), policy, date, notBefore, remaining, occupied, |before|).DayRanDry?
  {
    hide PickDay, CandidatesForDate, SelectDay, FewestPicks;
    var candidates := Offered(policy, date, notBefore, occupied).value;
    var existingToday := CountOn(policy.timezone, occupied, date);
    var most := MostDraws(policy, existingToday, remaining, |candidates|);
    RunsDryExactly(candidates, most, policy.SpacingMs());
    var draws :| |draws| == most && PickDay(candidates, draws, policy.SpacingMs()).RanDry?;
    var wanted := MostWanted(policy, existingToday, remaining);
    part := Part(policy, existingToday, remaining, wanted, draws);
    PartPlays(policy, date, notBefore, remaining, occupied, wanted, draws, before, []);
    assert before + part + [] == before + part;
  }

  /** In a script, this part makes the day yield these instants. */
  ghost predicate Yields(
    policy: SchedulePolicy, date: int, notBefore: int, remaining: nat, occupied: seq<int>, instants: seq<int>, part: seq<nat>)
  {
    forall before: seq<nat>, after: seq<nat> ::
      SelectDay(Scripted(before + part + after), policy, date, notBefore, remaining, occupied, |before|)
      == Day(|before| + |part|, instants)
  }

  lemma TakingPart(
    policy: SchedulePolicy, date: int, notBefore: int, remaining: nat, occupied: seq<int>, instants: seq<int>)
    returns (part: seq<nat>)
    requires DayCanTake(policy, date, notBefore, remaining, occupied, instants)
    ensures Yields(policy, date, notBefore, remaining, occupied, instants, part)
  {
    hide PickDay, CandidatesForDate, Part, Plays;
    part := [];
    if HasRoom(policy, date, occupied) {
      var offered := Offered(policy, date, notBefore, occupied).value;
      var wanted, draws :| Plays(policy, date, occupied, remaining, offered, wanted, draws)
        && PickDay(offered, draws, policy.SpacingMs()) == Picked(instants);
      part := PartOf(policy, date, occupied, remaining, offered, wanted, draws);
      forall before: seq<nat>, after: seq<nat>
        ensures SelectDay(Scripted(before + part + after), policy, date, notBefore, remaining, occupied, |before|)
                == Day(|before| + |part|, instants)
      {
        PartPlays(policy, date, notBefore, remaining, occupied, wanted, draws, before, after);
      }
    }
  }

  lemma PartOf(
    policy: SchedulePolicy, date: int, occupied: seq<int>, remaining: nat, candidates: seq<int>,
    wanted: nat, draws: seq<nat>) returns (part: seq<nat>)
    requires Plays(policy, date, occupied, remaining, candidates, wanted, draws)
    ensures var existingToday := CountOn(policy.timezone, occupied, date);
            && existingToday < policy.dailyReleases.maximum
            && LeastWanted(policy, existingToday, remaining) <= wanted
            && part == Part(policy, existingToday, remaining, wanted, draws)
  {
    part := Part(policy, CountOn(policy.timezone, occupied, date), remaining, wanted, draws);
  }

  /** A day that yields its instants hands the abort on from the next. */
  lemma AbortIsHandedOn(
    policy: SchedulePolicy, notBefore: int, requested: nat, existing: seq<int>, date: int, days: nat,
    selected: seq<PlannedSlot>, instants: seq<int>, before: seq<nat>, part: seq<nat>, rest: seq<nat>)
    requires |selected| < requested && days > 0 && date < policy.timezone.lastDate
    requires Yields(policy, date, notBefore, requested - |selected|, existing + Times(selected), instants, part)
    requires SelectDays(Scripted(before + part + rest), policy, notBefore, requested, existing, date + 1, days - 1,
                        selected + OnDate(instants, date), |before| + |part|).selection.Aborted?
    ensures SelectDays(Scripted(before + part + rest), policy, notBefore, requested, existing, date, days, selected, |before|)
            .selection.Aborted?
  {
    hide SelectDay, SelectDays;
    var source, occupied := Scripted(before + part + rest), existing + Times(selected);
    var day := SelectDay(source, policy, date, notBefore, requested - |selected|, occupied, |before|);
    NextDay(source, policy, notBefore, requested, existing, date, days, selected, |before|, occupied, day);
  }

  /** Wherever a day is led to that can abort, some script extending what was read so far aborts. */
  lemma {:induction false} AbortingScript(
    policy: SchedulePolicy, notBefore: int, requested: nat, existing: seq<int>,
    date: int, days: nat, selected: seq<PlannedSlot>, before: seq<nat>) returns (after: seq<nat>)
    requires LeadsToAbort(policy, notBefore, requested, existing, date, days, selected)
    ensures SelectDays(Scripted(before + after), policy, notBefore, requested, existing, date, days, selected, |before|)
            .selection.Aborted?
    decreases days
  {
    hide SelectDay, SelectDays, DayCanAbort, DayCanTake, Yields, Scripted;
    var remaining, occupied := requested - |selected|, existing + Times(selected);
    if DayCanAbort(policy, date, notBefore, remaining, occupied) {
      after := AbortingPart(policy, date, notBefore, remaining, occupied, before);
      var day := SelectDay(Scripted(before + after), policy, date, notBefore, remaining, occupied, |before|);
      NextDay(Scripted(before + after), policy, notBefore, requested, existing, date, days, selected, |before|, occupied, day);
    } else {
      var instants :| DayCanTake(policy, date, notBefore, remaining, occupied, instants)
        && |selected| + |instants| <= requested
        && LeadsToAbort(policy, notBefore, requested, existing, date + 1, days - 1, selected + OnDate(instants, date));
      var part := TakingPart(policy, date, notBefore, remaining, occupied, instants);
      var rest := AbortingScript(policy, notBefore, requested, existing, date + 1, days - 1,
                                 selected + OnDate(instants, date), before + part);
      AbortIsHandedOn(policy, notBefore, requested, existing, date, days, selected, instants, before, part, rest);
      after := part + rest;
      assert before + part + rest == before + after;
    }
  }

  /**
   * A selection can abort, for some source of draws, exactly when some choice of draws leads to a day with
   * room for more draws than the fewest that use its candidates up.
   */
  lemma AbortsExactly(policy: SchedulePolicy, notBefore: int, requested: nat, existing: seq<int>)
    requires policy.minimumSpacingMinutes > 0
    ensures (exists source: Source<int>, state: int ::
               SelectSlots(source, policy, notBefore, requested, existing, state).selection.Aborted?)
            <==> notBefore >= 0 && policy.timezone.DateOf(notBefore).Some?
                 && LeadsToAbort(policy, notBefore, requested, existing, policy.timezone.DateOf(notBefore).value,
                                 MAX_SCHEDULING_HORIZON_DAYS, [])
  {
    hide SelectDays, LeadsToAbort;
    if source: Source<int>, state: int :|
         SelectSlots(source, policy, notBefore, requested, existing, state).selection.Aborted? {
      NoSourceAbortsElsewhere(source, policy, notBefore, requested, existing, state);
    }
    if notBefore >= 0 && policy.timezone.DateOf(notBefore).Some? {
      var start := policy.timezone.DateOf(notBefore).value;
      if LeadsToAbort(policy, notBefore, requested, existing, start, MAX_SCHEDULING_HORIZON_DAYS, []) {
        var script := AbortingScript(policy, notBefore, requested, existing, start, MAX_SCHEDULING_HORIZON_DAYS, [], []);
        WantsSome(policy, notBefore, requested, existing, start, MAX_SCHEDULING_HORIZON_DAYS, []);
        assert SelectSlots(Scripted([] + script), policy, notBefore, requested, existing, 0).selection.Aborted?;
      }
    }
  }

  lemma WantsSome(
    policy: SchedulePolicy, notBefore: int, requested: nat, existing: seq<int>,
    date: int, days: nat, selected: seq<PlannedSlot>)
    requires LeadsToAbort(policy, notBefore, requested, existing, date, days, selected)
    ensures requested > 0
  {
  }

  /** Whatever the source, the daemon's own included, a selection aborts only where one is led to. */
  lemma NoSourceAbortsElsewhere<S>(
    source: Source<S>, policy: SchedulePolicy, notBefore: int, requested: nat, existing: seq<int>, state: S)
    requires policy.minimumSpacingMinutes > 0
    requires SelectSlots(source, policy, notBefore, requested, existing, state).selection.Aborted?
    ensures notBefore >= 0 && policy.timezone.DateOf(notBefore).Some?
    ensures LeadsToAbort(policy, notBefore, requested, existing, policy.timezone.DateOf(notBefore).value,
                         MAX_SCHEDULING_HORIZON_DAYS, [])
  {
    hide SelectDays, LeadsToAbort, SortSlots;
    AbortIsLedUpTo(source, policy, notBefore, requested, existing, policy.timezone.DateOf(notBefore).value,
                   MAX_SCHEDULING_HORIZON_DAYS, [], state);
  }

  // -------------------------------------------------- days that cannot abort

  /** A day that starts with enough distinct minutes for its draws cannot abort. */
  lemma SpaciousDayNeverAborts(policy: SchedulePolicy, date: int, notBefore: int, remaining: nat, occupied: seq<int>)
    requires HasRoom(policy, date, occupied) && Offered(policy, date, notBefore, occupied).Ok?
    requires var candidates := Offered(policy, date, notBefore, occupied).value;
             var most := MostDraws(policy, CountOn(policy.timezone, occupied, date), remaining, |candidates|);
             |Instants(candidates)| > (most - 1) * (2 * policy.minimumSpacingMinutes - 1)
    ensures !DayCanAbort(policy, date, notBefore, remaining, occupied)
  {
    hide CandidatesForDate, FewestPicks, HasRoom;
    if DayCanAbort(policy, date, notBefore, remaining, occupied) {
      var candidates := Offered(policy, date, notBefore, occupied).value;
      var most := MostDraws(policy, CountOn(policy.timezone, occupied, date), remaining, |candidates|);
      forall m | m in Instants(candidates) ensures m % MINUTE_MS == 0 {
        CandidatesExactly(policy, date, notBefore, occupied, policy.SpacingMs(), m);
      }
      PicksBoundMinutes(Instants(candidates), policy.minimumSpacingMinutes);
      AtMost(FewestPicks(Instants(candidates), policy.SpacingMs()), most - 1, 2 * policy.minimumSpacingMinutes - 1);
    }
  }

  predicate Rising(minutes: seq<int>) {
    forall i, j | 0 <= i < j < |minutes| :: minutes[i] < minutes[j]
  }

  lemma {:induction false} FreeMinutesRise(candidate: int, end: int, occupied: seq<int>, spacingMs: int)
    ensures Rising(FreeMinutes(candidate, end, occupied, spacingMs))
    ensures forall x | x in FreeMinutes(candidate, end, occupied, spacingMs) :: candidate <= x < end
    decreases end - candidate
  {
    if candidate < end {
      FreeMinutesRise(candidate + MINUTE_MS, end, occupied, spacingMs);
      RisingAppend(if Clear(candidate, occupied, spacingMs) then [candidate] else [],
                   FreeMinutes(candidate + MINUTE_MS, end, occupied, spacingMs), candidate + MINUTE_MS);
    }
  }

  lemma RisingAppend(a: seq<int>, b: seq<int>, bound: int)
    requires Rising(a) && Rising(b)
    requires (forall x | x in a :: x < bound) && forall x | x in b :: bound <= x
    ensures Rising(a + b)
  {
    forall i, j | 0 <= i < j < |a + b| ensures (a + b)[i] < (a + b)[j] {
      if i < |a| <= j {
        assert a[i] in a && b[j - |a|] in b;
      }
    }
  }

  lemma {:induction false} CandidatesRise(
    offsetMs: int, lastDate: int, windows: seq<DailyWindow>, date: int, notBefore: int, occupied: seq<int>, spacingMs: int)
    requires Disjoint(windows) && CandidatesIn(FixedOffset(offsetMs, lastDate), windows, date, notBefore, occupied, spacingMs).Ok?
    ensures var r := CandidatesIn(FixedOffset(offsetMs, lastDate), windows, date, notBefore, occupied, spacingMs).value;
            && Rising(r)
            && (windows != [] ==> forall x | x in r :: date * DAY_MS + windows[0].start * MINUTE_MS - offsetMs <= x)
  {
    if windows != [] {
      var rest := windows[1..];
      RestIsDisjoint(windows);
      CandidatesRise(offsetMs, lastDate, rest, date, notBefore, occupied, spacingMs);
      var start := date * DAY_MS + windows[0].start * MINUTE_MS - offsetMs;
      var earliest := if start >= notBefore then start else notBefore;
      var end := date * DAY_MS + windows[0].end * MINUTE_MS - offsetMs;
      var first := RoundUpToMinute(earliest);
      FreeMinutesRise(first, end, occupied, spacingMs);
      RisingAppend(FreeMinutes(first, end, occupied, spacingMs),
                   CandidatesIn(FixedOffset(offsetMs, lastDate), rest, date, notBefore, occupied, spacingMs).value, end);
    }
  }

  lemma RestIsDisjoint(windows: seq<DailyWindow>)
    requires Disjoint(windows) && windows != []
    ensures Disjoint(windows[1..])
    ensures |windows| > 1 ==> windows[0].end <= windows[1].start
  {
    forall k | 0 <= k < |windows[1..]| - 1 ensures windows[1..][k].end <= windows[1..][k + 1].start {
      assert windows[k + 1].end <= windows[k + 1 + 1].start;
    }
    if |windows| > 1 {
      assert windows[0].end <= windows[0 + 1].start;
    }
  }

  lemma {:induction false} RisingHasNoRepeats(minutes: seq<int>)
    requires Rising(minutes)
    ensures |Instants(minutes)| == |minutes|
  {
    if minutes == [] {
      assert Instants(minutes) == {};
    } else {
      var n := |minutes| - 1;
      RisingHasNoRepeats(minutes[..n]);
      assert minutes == minutes[..n] + [minutes[n]];
      assert Instants(minutes) == Instants(minutes[..n]) + {minutes[n]};
      assert minutes[n] !in Instants(minutes[..n]);
    }
  }

  lemma {:induction false} NowhereToAbort(
    policy: SchedulePolicy, notBefore: int, requested: nat, existing: seq<int>,
    date: int, days: nat, selected: seq<PlannedSlot>)
    requires forall d: int, remaining: nat, occupied: seq<int> :: !DayCanAbort(policy, d, notBefore, remaining, occupied)
    ensures !LeadsToAbort(policy, notBefore, requested, existing, date, days, selected)
    decreases days
  {
    hide DayCanAbort, DayCanTake;
    if LeadsToAbort(policy, notBefore, requested, existing, date, days, selected) {
      var remaining, occupied := requested - |selected|, existing + Times(selected);
      var instants :| DayCanTake(policy, date, notBefore, remaining, occupied, instants)
        && LeadsToAbort(policy, notBefore, requested, existing, date + 1, days - 1, selected + OnDate(instants, date));
      NowhereToAbort(policy, notBefore, requested, existing, date + 1, days - 1, selected + OnDate(instants, date));
    }
  }

  lemma MinuteDaysNeverAbort(
    policy: SchedulePolicy, offsetMs: int, lastDate: int, date: int, notBefore: int, remaining: nat, occupied: seq<int>)
    requires policy.Valid() && policy.timezone == FixedOffset(offsetMs, lastDate) && policy.minimumSpacingMinutes == 1
    ensures !DayCanAbort(policy, date, notBefore, remaining, occupied)
  {
    hide FewestPicks, CandidatesIn, FixedOffset, CountOn;
    if HasRoom(policy, date, occupied) && Offered(policy, date, notBefore, occupied).Ok? {
      CandidatesRise(offsetMs, lastDate, policy.windows, date, notBefore, occupied, policy.SpacingMs());
      RisingHasNoRepeats(Offered(policy, date, notBefore, occupied).value);
      SpaciousDayNeverAborts(policy, date, notBefore, remaining, occupied);
    }
  }

  /** With a spacing of one minute a pick hides nothing but itself, and no selection aborts. */
  lemma MinuteSpacingNeverAborts<S>(
    source: Source<S>, policy: SchedulePolicy, offsetMs: int, lastDate: int,
    notBefore: int, requested: nat, existing: seq<int>, state: S)
    requires policy.Valid() && policy.timezone == FixedOffset(offsetMs, lastDate) && policy.minimumSpacingMinutes == 1
    ensures !SelectSlots(source, policy, notBefore, requested, existing, state).selection.Aborted?
  {
    hide SelectSlots, DayCanAbort, LeadsToAbort;
    if SelectSlots(source, policy, notBefore, requested, existing, state).selection.Aborted? {
      NoSourceAbortsElsewhere(source, policy, notBefore, requested, existing, state);
      forall d: int, remaining: nat, occupied: seq<int>
        ensures !DayCanAbort(policy, d, notBefore, remaining, occupied)
      {
        MinuteDaysNeverAbort(policy, offsetMs, lastDate, d, notBefore, remaining, occupied);
      }
      NowhereToAbort(policy, notBefore, requested, existing, policy.timezone.DateOf(notBefore).value,
                     MAX_SCHEDULING_HORIZON_DAYS, []);
    }
  }
}
