/** When the generator delivers what was asked, and exactly when it can abort. */
module SelectionCompleteness {
  import opened Wrappers
  import opened SchedulePolicies
  import opened Candidates
  import opened FiniteSets
  import opened PickLoop
  import opened SlotGenerators
  import opened SelectionSoundness

  // ------------------------------------------------------- when a day aborts

  /** The most draws one day can be asked for. */
  function MostDraws(policy: SchedulePolicy, existingToday: nat, remaining: nat, candidates: nat): nat
    requires existingToday < policy.dailyReleases.maximum
  {
    Min(candidates, Min(policy.dailyReleases.maximum - existingToday, remaining))
  }

  /** Whatever the source of draws, a day that aborts was asked for more draws than the fewest picks
      that use it up. */
  lemma AbortNeedsTooManyDraws<S>(
    source: Source<S>, policy: SchedulePolicy, date: int, notBefore: int, remaining: nat, occupied: seq<int>, state: S)
    requires policy.minimumSpacingMinutes > 0
    requires SelectDay(source, policy, date, notBefore, remaining, occupied, state).DayRanDry?
    ensures WeekdayOf(date) in policy.allowedDays
    ensures CountOn(policy.timezone, occupied, date) < policy.dailyReleases.maximum
    ensures var candidates := CandidatesForDate(policy, date, notBefore, occupied, policy.SpacingMs());
            && candidates.Ok?
            && FewestPicks(Instants(candidates.value), policy.SpacingMs())
               < MostDraws(policy, CountOn(policy.timezone, occupied, date), remaining, |candidates.value|)
  {
    var existingToday := CountOn(policy.timezone, occupied, date);
    var (wanted, drawn) := Wanted(source, policy, existingToday, remaining, state);
    var candidates := CandidatesForDate(policy, date, notBefore, occupied, policy.SpacingMs()).value;
    RunsDryExactly(candidates, Min(wanted, |candidates|), policy.SpacingMs());
  }

  /** A source that reads out a given list of numbers. */
  function Scripted(script: seq<nat>): Source<int> {
    Source((s: int) => s + 1, (s: int) => if 0 < s <= |script| then script[s - 1] else 0)
  }

  lemma {:induction false} ScriptIsRead(script: seq<nat>, from: nat, count: nat)
    requires from + count <= |script|
    ensures Outputs(Scripted(script), from, count) == script[from..from + count]
    decreases count
  {
    if count > 0 {
      ScriptIsRead(script, from + 1, count - 1);
      assert script[from..from + count] == [script[from]] + script[from + 1..from + count];
    }
  }

  lemma MostDrawsCanBeWanted(policy: SchedulePolicy, existingToday: nat, remaining: nat, draws: seq<nat>)
    returns (script: seq<nat>)
    requires existingToday < policy.dailyReleases.maximum
    ensures var (wanted, drawn) := Wanted(Scripted(script), policy, existingToday, remaining, 0);
            && wanted == Min(policy.dailyReleases.maximum - existingToday, remaining)
            && Outputs(Scripted(script), drawn, |draws|) == draws
  {
    var dailyMinimum := Minus(policy.dailyReleases.minimum, existingToday);
    var dailyMaximum := Min(policy.dailyReleases.maximum - existingToday, remaining);
    if remaining <= dailyMinimum {
      script := draws;
      ScriptIsRead(script, 0, |draws|);
    } else {
      var lower := Min(dailyMinimum, dailyMaximum);
      script := [dailyMaximum - lower] + draws;
      SmallRemainder(dailyMaximum - lower, dailyMaximum - lower + 1);
      ScriptIsRead(script, 1, |draws|);
    }
  }

  /** A day with room on an allowed date can abort, for some source of draws, exactly when the most
      draws it can be asked for exceed the fewest picks that use its candidates up. */
  lemma DayAbortsExactly(policy: SchedulePolicy, date: int, notBefore: int, remaining: nat, occupied: seq<int>)
    requires policy.minimumSpacingMinutes > 0 && WeekdayOf(date) in policy.allowedDays
    requires CountOn(policy.timezone, occupied, date) < policy.dailyReleases.maximum
    requires CandidatesForDate(policy, date, notBefore, occupied, policy.SpacingMs()).Ok?
    ensures var candidates := CandidatesForDate(policy, date, notBefore, occupied, policy.SpacingMs()).value;
            (exists source: Source<int>, state: int ::
               SelectDay(source, policy, date, notBefore, remaining, occupied, state).DayRanDry?)
            <==> FewestPicks(Instants(candidates), policy.SpacingMs())
                 < MostDraws(policy, CountOn(policy.timezone, occupied, date), remaining, |candidates|)
  {
    var existingToday := CountOn(policy.timezone, occupied, date);
    var candidates := CandidatesForDate(policy, date, notBefore, occupied, policy.SpacingMs()).value;
    var most := MostDraws(policy, existingToday, remaining, |candidates|);
    if exists source: Source<int>, state: int ::
         SelectDay(source, policy, date, notBefore, remaining, occupied, state).DayRanDry? {
      var source: Source<int>, state: int :|
        SelectDay(source, policy, date, notBefore, remaining, occupied, state).DayRanDry?;
      AbortNeedsTooManyDraws(source, policy, date, notBefore, remaining, occupied, state);
    }
    if FewestPicks(Instants(candidates), policy.SpacingMs()) < most {
      RunsDryExactly(candidates, most, policy.SpacingMs());
      var draws :| |draws| == most && PickDay(candidates, draws, policy.SpacingMs()).RanDry?;
      var script := MostDrawsCanBeWanted(policy, existingToday, remaining, draws);
      assert SelectDay(Scripted(script), policy, date, notBefore, remaining, occupied, 0).DayRanDry?;
    }
  }

  lemma {:induction false} WalkNeverAborts<S>(
    source: Source<S>, policy: SchedulePolicy, notBefore: int, requested: nat, existing: seq<int>,
    date: int, days: nat, selected: seq<PlannedSlot>, state: S)
    requires requested <= 1 || policy.dailyReleases.maximum == 1
    ensures !SelectDays(source, policy, notBefore, requested, existing, date, days, selected, state).selection.Aborted?
    decreases days
  {
    if |selected| != requested && days > 0 {
      var remaining, occupied := Minus(requested, |selected|), existing + Times(selected);
      var day := SelectDay(source, policy, date, notBefore, remaining, occupied, state);
      DayTakesOne(source, policy, date, notBefore, remaining, occupied, state);
      if day.Day? {
        WalkNeverAborts(source, policy, notBefore, requested, existing, date + 1, days - 1,
                        selected + OnDate(day.instants, date), day.state);
      }
    }
  }

  lemma DayTakesOne<S>(
    source: Source<S>, policy: SchedulePolicy, date: int, notBefore: int, remaining: nat, occupied: seq<int>, state: S)
    requires remaining <= 1 || policy.dailyReleases.maximum == 1
    ensures !SelectDay(source, policy, date, notBefore, remaining, occupied, state).DayRanDry?
  {
    var existingToday := CountOn(policy.timezone, occupied, date);
    var r := CandidatesForDate(policy, date, notBefore, occupied, policy.SpacingMs());
    if WeekdayOf(date) in policy.allowedDays && existingToday < policy.dailyReleases.maximum && r.Ok? {
      var (wanted, drawn) := Wanted(source, policy, existingToday, remaining, state);
      OneDrawNeverRunsDry(r.value, Outputs(source, drawn, Min(wanted, |r.value|)), policy.SpacingMs());
    }
  }

  /** Selecting one slot at a time, as the daemon does, never aborts; nor does a daily maximum of one. */
  lemma OneSlotNeverAborts<S>(
    source: Source<S>, policy: SchedulePolicy, notBefore: int, requested: nat, existing: seq<int>, state: S)
    requires requested <= 1 || policy.dailyReleases.maximum == 1
    ensures !SelectSlots(source, policy, notBefore, requested, existing, state).selection.Aborted?
  {
    if requested > 0 && notBefore >= 0 && policy.timezone.DateOf(notBefore).Some? {
      WalkNeverAborts(source, policy, notBefore, requested, existing, policy.timezone.DateOf(notBefore).value,
                      MAX_SCHEDULING_HORIZON_DAYS, [], state);
    }
  }

  // --------------------------------------------- an accepted policy that aborts

  const EVERY_DAY := {Monday, Tuesday, Wednesday, Thursday, Friday, Saturday, Sunday}
  const ONE_HOUR: seq<DailyWindow> := [Interval(540, 600)]
  const TIGHT := SchedulePolicy(FixedOffset(0, 1000), EVERY_DAY, ONE_HOUR, Range(3, 3), 25, RescheduleForward)
  const UNLUCKY_SEED: bv64 := 48
  const UNLUCKY_STATE: bv64 := 1610612796

  lemma {:induction false} EmptyDayMinutes(first: int, count: nat, spacingMs: int)
    ensures var minutes := FreeMinutes(first, first + count * MINUTE_MS, [], spacingMs);
            |minutes| == count && forall i | 0 <= i < count :: minutes[i] == first + i * MINUTE_MS
    decreases count
  {
    if count > 0 {
      EmptyDayMinutes(first + MINUTE_MS, count - 1, spacingMs);
    }
  }

  lemma TightIsAccepted()
    ensures NewPolicy(FixedOffset(0, 1000), EVERY_DAY, ONE_HOUR, Range(3, 3), 25, RescheduleForward) == Ok(TIGHT)
  {
    assert ONE_HOUR[1..] == [];
    assert SortWindows(ONE_HOUR) == ONE_HOUR;
    assert GreedyMinutes(ONE_HOUR, 590, 25) == [590] + GreedyMinutes(ONE_HOUR, 615, 25);
    assert GreedyMinutes(ONE_HOUR, 565, 25) == [565] + GreedyMinutes(ONE_HOUR, 590, 25);
    assert GreedyMinutes(ONE_HOUR, 0, 25) == [540] + GreedyMinutes(ONE_HOUR, 565, 25);
  }

  lemma CloseTogetherLeavesNothing(candidates: seq<int>, index: nat, gap: int)
    requires index < |candidates| && gap > 0
    requires forall a, b | a in candidates && b in candidates :: Abs(a - b) < gap
    ensures AfterPick(candidates, index, gap) == []
  {
    var rest := AfterPick(candidates, index, gap);
    if rest != [] {
      var left, taken := rest[0], candidates[index];
      assert left in rest && taken in candidates;
      AfterPickExactly(candidates, index, gap, left);
      assert false;
    }
  }

  /** Two more draws from candidates that all hide one another run dry. */
  lemma TwoDrawsRunDry(candidates: seq<int>, draws: seq<nat>, gap: int)
    requires |draws| == 2 && gap > 0
    requires forall a, b | a in candidates && b in candidates :: Abs(a - b) < gap
    ensures PickDay(candidates, draws, gap).RanDry?
  {
    if candidates != [] {
      var index := draws[0] % |candidates|;
      CloseTogetherLeavesNothing(candidates, index, gap);
      assert PickDay([], draws[1..], gap).RanDry?;
    }
  }

  lemma After0924(minutes: seq<int>, m: int)
    requires |minutes| == 60 && forall i | 0 <= i < 60 :: minutes[i] == 540 * MINUTE_MS + i * MINUTE_MS
    requires m in AfterPick(minutes, 24, 25 * MINUTE_MS)
    ensures 589 * MINUTE_MS <= m <= 599 * MINUTE_MS
  {
    AfterPickExactly(minutes, 24, 25 * MINUTE_MS, m);
    hide AfterPick;
    var i :| 0 <= i < 60 && minutes[i] == m;
  }

  /** Taking 09:24 leaves only 09:49 to 09:59, and any of those hides the rest. */
  lemma TightDayRunsDry(draws: seq<nat>)
    requires |draws| == 3 && draws[0] % 60 == 24
    ensures PickDay(FreeMinutes(540 * MINUTE_MS, 600 * MINUTE_MS, [], 25 * MINUTE_MS), draws, 25 * MINUTE_MS).RanDry?
  {
    hide FreeMinutes, AfterPick;
    var minutes, gap := FreeMinutes(540 * MINUTE_MS, 600 * MINUTE_MS, [], 25 * MINUTE_MS), 25 * MINUTE_MS;
    EmptyDayMinutes(540 * MINUTE_MS, 60, gap);
    var second := AfterPick(minutes, 24, gap);
    forall m | m in second ensures 589 * MINUTE_MS <= m <= 599 * MINUTE_MS {
      After0924(minutes, m);
    }
    TwoDrawsRunDry(second, draws[1..], gap);
  }

  lemma UnluckyDraw()
    ensures (NextState(UNLUCKY_SEED) * MULTIPLIER) as nat % 60 == 24
  {
    assert NextState(UNLUCKY_SEED) == UNLUCKY_STATE;
    assert UNLUCKY_STATE * MULTIPLIER == 4192328957099758284;
  }

  lemma TightCandidates()
    ensures CandidatesForDate(TIGHT, 0, 0, [], TIGHT.SpacingMs())
         == Ok(FreeMinutes(540 * MINUTE_MS, 600 * MINUTE_MS, [], 25 * MINUTE_MS))
    ensures |FreeMinutes(540 * MINUTE_MS, 600 * MINUTE_MS, [], 25 * MINUTE_MS)| == 60
  {
    EmptyDayMinutes(540 * MINUTE_MS, 60, 25 * MINUTE_MS);
    hide FreeMinutes;
    var minutes := FreeMinutes(540 * MINUTE_MS, 600 * MINUTE_MS, [], 25 * MINUTE_MS);
    assert TIGHT.timezone.InstantOf(0, 540) == Some(540 * MINUTE_MS);
    assert TIGHT.timezone.InstantOf(0, 600) == Some(600 * MINUTE_MS);
    assert RoundUpToMinute(540 * MINUTE_MS) == 540 * MINUTE_MS;
    assert TIGHT.windows == [Interval(540, 600)] && TIGHT.windows[1..] == [];
    assert CandidatesIn(TIGHT.timezone, [], 0, 0, [], TIGHT.SpacingMs()) == Ok([]);
    assert minutes + [] == minutes;
  }

  lemma UnluckyOutputs()
    ensures Outputs(XORSHIFT, UNLUCKY_SEED, 3)[0] % 60 == 24
  {
    UnluckyDraw();
    assert Outputs(XORSHIFT, UNLUCKY_SEED, 3)[0] == XORSHIFT.Read(XORSHIFT.Next(UNLUCKY_SEED));
  }

  lemma TightDayAborts()
    ensures SelectDay(XORSHIFT, TIGHT, 0, 0, 3, [], UNLUCKY_SEED).DayRanDry?
  {
    hide XORSHIFT, FreeMinutes, CandidatesForDate, PickDay, Outputs;
    UnluckyOutputs();
    TightCandidates();
    TightDayRunsDry(Outputs(XORSHIFT, UNLUCKY_SEED, 3));
    assert Wanted(XORSHIFT, TIGHT, 0, 3, UNLUCKY_SEED) == (3, UNLUCKY_SEED);
    assert WeekdayOf(0) in TIGHT.allowedDays;
  }

  /** The accepted policy, asked for three slots with this seed, aborts instead of answering. */
  lemma AcceptedPolicyCanAbort()
    ensures SelectSlots(XORSHIFT, TIGHT, 0, 3, [], Seed(UNLUCKY_SEED)).selection.Aborted?
  {
    TightDayAborts();
    hide SelectDay, XORSHIFT;
    assert [] + Times([]) == [];
    assert TIGHT.timezone.DateOf(0) == Some(0);
  }
}
