/** The seeded slot selector (crates/core/src/schedule.rs, `SlotGenerator`). */
module SlotGenerators {
  import opened Wrappers
  import opened SchedulePolicies
  import opened Candidates
  import opened PickLoop

  // ------------------------------------------------------------ xorshift64*

  const ZERO_SEED_STATE: bv64 := 0x9E37_79B9_7F4A_7C15
  const MULTIPLIER: bv64 := 0x2545_F491_4F6C_DD1D

  function NextState(state: bv64): bv64 {
    var a := state ^ (state >> 12);
    var b := a ^ (a << 25);
    b ^ (b >> 27)
  }

  function Seed(seed: bv64): bv64 {
    if seed == 0 then ZERO_SEED_STATE else seed
  }

  lemma ShiftBy12(x: bv64)
    ensures x != 0 ==> x ^ (x >> 12) != 0
  {
  }

  lemma ShiftBy25(x: bv64)
    ensures x != 0 ==> x ^ (x << 25) != 0
  {
  }

  lemma ShiftBy27(x: bv64)
    ensures x != 0 ==> x ^ (x >> 27) != 0
  {
  }

  /** A step never leads into the all-zero state, which would repeat forever. */
  lemma NonZeroStep(state: bv64)
    requires state != 0
    ensures NextState(state) != 0
  {
    ShiftBy12(state);
    var a := state ^ (state >> 12);
    ShiftBy25(a);
    ShiftBy27(a ^ (a << 25));
  }

  /** Where draws come from: how the state moves, and the number read from the state reached.
      Everything proved of `SelectSlots` holds for every source, hence for every seed. */
  datatype Source<!S> = Source(next: S -> S, read: S -> nat) {
    function Next(state: S): S { next(state) }
    function Read(state: S): nat { read(state) }
  }

  const XORSHIFT: Source<bv64> := Source((s: bv64) => NextState(s), (s: bv64) => (s * MULTIPLIER) as nat)

  function Outputs<S>(source: Source<S>, state: S, count: nat): (r: seq<nat>)
    ensures |r| == count
    decreases count
  {
    if count == 0 then []
    else [source.Read(source.Next(state))] + Outputs(source, source.Next(state), count - 1)
  }

  function AdvanceBy<S>(source: Source<S>, state: S, count: nat): S
    decreases count
  {
    if count == 0 then state else AdvanceBy(source, source.Next(state), count - 1)
  }

  lemma {:induction false} AdvanceNonZero(state: bv64, steps: nat)
    requires state != 0
    ensures AdvanceBy(XORSHIFT, state, steps) != 0
    decreases steps
  {
    if steps > 0 {
      NonZeroStep(state);
      AdvanceNonZero(NextState(state), steps - 1);
    }
  }

  /** No seed, not even zero, is ever absorbed. */
  lemma NeverAbsorbed(seed: bv64, steps: nat)
    ensures AdvanceBy(XORSHIFT, Seed(seed), steps) != 0
  {
    AdvanceNonZero(Seed(seed), steps);
  }

  // -------------------------------------------------------------- selection

  datatype PlannedSlot = PlannedSlot(selectedAt: int, localDate: int)

  /** `Aborted` is the panic of a draw from an empty candidate list. */
  datatype Selection = Selected(slots: seq<PlannedSlot>) | Refused(error: PolicyError) | Aborted

  datatype Run<S> = Run(state: S, selection: Selection)

  function Times(slots: seq<PlannedSlot>): (r: seq<int>)
    ensures |r| == |slots|
    ensures forall i | 0 <= i < |slots| :: r[i] == slots[i].selectedAt
  {
    seq(|slots|, i requires 0 <= i < |slots| => slots[i].selectedAt)
  }

  /** How many instants fall on a civil date. */
  function CountOn(zone: Zone, instants: seq<int>, date: int): nat {
    if instants == [] then 0
    else (if zone.DateOf(instants[0]) == Some(date) then 1 else 0) + CountOn(zone, instants[1..], date)
  }

  function Minus(a: nat, b: nat): nat {
    if a > b then a - b else 0
  }

  function Min(a: nat, b: nat): nat {
    if a <= b then a else b
  }

  /** How many releases to aim for on one day, and the state after the draw that decides it. */
  function Wanted<S>(source: Source<S>, policy: SchedulePolicy, existingToday: nat, remaining: nat, state: S): (r: (nat, S))
    requires existingToday < policy.dailyReleases.maximum
    ensures r.0 <= remaining && r.0 <= policy.dailyReleases.maximum - existingToday
    ensures remaining > 0 && policy.dailyReleases.minimum > existingToday ==> r.0 >= 1
  {
    var dailyMinimum := Minus(policy.dailyReleases.minimum, existingToday);
    var dailyMaximum := Min(policy.dailyReleases.maximum - existingToday, remaining);
    if remaining <= dailyMinimum then (remaining, state)
    else
      var lower := Min(dailyMinimum, dailyMaximum);
      (lower + source.Read(source.Next(state)) % (dailyMaximum - lower + 1), source.Next(state))
  }

  /** One day's outcome: the instants taken, a refusal, or an abort. */
  datatype DayRun<S> = Day(state: S, instants: seq<int>) | DayRefused(error: PolicyError) | DayRanDry

  function SelectDay<S>(
    source: Source<S>, policy: SchedulePolicy, date: int, notBefore: int, remaining: nat, occupied: seq<int>, state: S): DayRun<S>
  {
    var existingToday := CountOn(policy.timezone, occupied, date);
    if WeekdayOf(date) !in policy.allowedDays || policy.dailyReleases.maximum <= existingToday then Day(state, [])
    else
      var (wanted, drawn) := Wanted(source, policy, existingToday, remaining, state);
      match CandidatesForDate(policy, date, notBefore, occupied, policy.SpacingMs())
      case Err(error) => DayRefused(error)
      case Ok(candidates) =>
        var count := Min(wanted, |candidates|);
        match PickDay(candidates, Outputs(source, drawn, count), policy.SpacingMs())
        case RanDry => DayRanDry
        case Picked(instants) => Day(AdvanceBy(source, drawn, count), instants)
  }

  function OnDate(instants: seq<int>, date: int): (r: seq<PlannedSlot>)
    ensures |r| == |instants|
    ensures forall i | 0 <= i < |instants| :: r[i] == PlannedSlot(instants[i], date)
  {
    seq(|instants|, i requires 0 <= i < |instants| => PlannedSlot(instants[i], date))
  }

  /** Walks the calendar from `date`, keeping the slots selected so far in the order they were drawn. */
  function SelectDays<S>(
    source: Source<S>, policy: SchedulePolicy, notBefore: int, requested: nat, existing: seq<int>,
    date: int, days: nat, selected: seq<PlannedSlot>, state: S): Run<S>
    decreases days
  {
    if |selected| == requested then Run(state, Selected(selected))
    else if days == 0 then Run(state, Refused(InsufficientSchedulingCapacity(requested, |selected|)))
    else
      var day := SelectDay(source, policy, date, notBefore, Minus(requested, |selected|), existing + Times(selected), state);
      if day.DayRefused? then Run(state, Refused(day.error))
      else if day.DayRanDry? then Run(state, Aborted)
      else if date >= policy.timezone.lastDate then Run(day.state, Refused(SchedulingHorizonExceeded))
      else SelectDays(source, policy, notBefore, requested, existing, date + 1, days - 1,
                      selected + OnDate(day.instants, date), day.state)
  }

  lemma DayTakesNoMore<S>(
    source: Source<S>, policy: SchedulePolicy, date: int, notBefore: int, remaining: nat, occupied: seq<int>, state: S)
    ensures var day := SelectDay(source, policy, date, notBefore, remaining, occupied, state);
            day.Day? ==> |day.instants| <= remaining
  {
    var existingToday := CountOn(policy.timezone, occupied, date);
    if WeekdayOf(date) in policy.allowedDays && existingToday < policy.dailyReleases.maximum {
      var (wanted, drawn) := Wanted(source, policy, existingToday, remaining, state);
      var r := CandidatesForDate(policy, date, notBefore, occupied, policy.SpacingMs());
      if r.Ok? {
        PicksAreAsManyAsDraws(r.value, Outputs(source, drawn, Min(wanted, |r.value|)), policy.SpacingMs());
      }
    }
  }

  lemma {:induction false} PicksAreAsManyAsDraws(candidates: seq<int>, draws: seq<nat>, spacingMs: int)
    ensures var day := PickDay(candidates, draws, spacingMs);
            day.Picked? ==> |day.instants| == |draws|
    decreases |draws|
  {
    if draws != [] && candidates != [] {
      PicksAreAsManyAsDraws(AfterPick(candidates, draws[0] % |candidates|, spacingMs), draws[1..], spacingMs);
    }
  }

  function InsertSlot(slot: PlannedSlot, sorted: seq<PlannedSlot>): (r: seq<PlannedSlot>)
    ensures |r| == |sorted| + 1
    ensures forall s :: s in r <==> s == slot || s in sorted
  {
    if sorted == [] || slot.selectedAt <= sorted[0].selectedAt then [slot] + sorted
    else [sorted[0]] + InsertSlot(slot, sorted[1..])
  }

  function SortSlots(slots: seq<PlannedSlot>): (r: seq<PlannedSlot>)
    ensures |r| == |slots|
    ensures forall s :: s in r <==> s in slots
  {
    if slots == [] then [] else InsertSlot(slots[0], SortSlots(slots[1..]))
  }

  function SelectSlots<S>(
    source: Source<S>, policy: SchedulePolicy, notBefore: int, requested: nat, existing: seq<int>, state: S): Run<S>
  {
    if requested == 0 then Run(state, Selected([]))
    else if notBefore < 0 || policy.timezone.DateOf(notBefore).None? then
      Run(state, Refused(InvalidSchedulingTimestamp(notBefore)))
    else
      var run := SelectDays(source, policy, notBefore, requested, existing, policy.timezone.DateOf(notBefore).value,
                            MAX_SCHEDULING_HORIZON_DAYS, [], state);
      if run.selection.Selected? then run.(selection := Selected(SortSlots(run.selection.slots))) else run
  }

  class SlotGenerator {
    const source: Source<bv64>
    var state: bv64

    constructor Seeded(seed: bv64)
      ensures state == Seed(seed) && source == XORSHIFT
    {
      source := XORSHIFT;
      state := if seed == 0 then ZERO_SEED_STATE else seed;
    }

    method NextIndex(upperBound: nat) returns (index: nat)
      requires upperBound > 0
      modifies this
      ensures state == source.Next(old(state))
      ensures index == source.Read(state) % upperBound && index < upperBound
    {
      state := source.Next(state);
      index := source.Read(state) % upperBound;
    }

    /** The inner loop of `Select`: as many draws as decided beforehand, each shrinking the list. */
    method Pick(offered: seq<int>, count: nat, spacingMs: int) returns (day: DayPicks)
      modifies this
      ensures day == PickDay(offered, Outputs(source, old(state), count), spacingMs)
      ensures day.Picked? ==> state == AdvanceBy(source, old(state), count)
    {
      var candidates := offered;
      var taken: seq<int> := [];
      ghost var whole := PickDay(offered, Outputs(source, state, count), spacingMs);
      for k := 0 to count
        invariant PickContinues(whole, taken, PickDay(candidates, Outputs(source, state, count - k), spacingMs))
        invariant AdvanceBy(source, state, count - k) == AdvanceBy(source, old(state), count)
      {
        if candidates == [] {
          return RanDry;
        }
        PickStep(whole, taken, candidates, source, state, count - k, spacingMs);
        var index := NextIndex(|candidates|);
        taken := taken + [candidates[index]];
        candidates := AfterPick(candidates, index, spacingMs);
      }
      assert taken + [] == taken;
      return Picked(taken);
    }

    /** One turn of the outer loop of `Select`. */
    method SelectOneDay(policy: SchedulePolicy, date: int, notBefore: int, remaining: nat, occupied: seq<int>)
      returns (day: DayRun<bv64>)
      modifies this
      ensures day == SelectDay(source, policy, date, notBefore, remaining, occupied, old(state))
      ensures day.Day? ==> state == day.state
    {
      var existingToday := CountOn(policy.timezone, occupied, date);
      if WeekdayOf(date) !in policy.allowedDays || policy.dailyReleases.maximum <= existingToday {
        return Day(state, []);
      }
      var wanted := HowMany(policy, existingToday, remaining);
      var candidates := ListCandidates(policy, date, notBefore, occupied, policy.SpacingMs());
      if candidates.Err? {
        return DayRefused(candidates.error);
      }
      var picks := Pick(candidates.value, Min(wanted, |candidates.value|), policy.SpacingMs());
      return if picks.RanDry? then DayRanDry else Day(state, picks.instants);
    }

    /** The outer loop of `Select`, which leaves the slots in the order they were drawn. */
    method Walk(policy: SchedulePolicy, notBefore: int, requested: nat, existing: seq<int>, firstDate: int, horizon: nat)
      returns (selection: Selection)
      modifies this
      ensures var run := SelectDays(source, policy, notBefore, requested, existing, firstDate, horizon, [], old(state));
              && selection == run.selection
              && (selection.Selected? ==> state == run.state)
    {
      hide SelectDay;
      var date, days := firstDate, horizon;
      var selected: seq<PlannedSlot> := [];
      var occupied := existing;
      assert existing + Times([]) == existing;
      ghost var whole := SelectDays(source, policy, notBefore, requested, existing, date, days, [], state);
      while days > 0 && |selected| != requested
        invariant |selected| <= requested
        invariant occupied == existing + Times(selected)
        invariant SelectDays(source, policy, notBefore, requested, existing, date, days, selected, state) == whole
        decreases days
      {
        ghost var before := state;
        var day := SelectOneDay(policy, date, notBefore, requested - |selected|, occupied);
        NextDay(source, policy, notBefore, requested, existing, date, days, selected, before, occupied, day);
        if day.DayRefused? {
          return Refused(day.error);
        } else if day.DayRanDry? {
          return Aborted;
        } else if date >= policy.timezone.lastDate {
          return Refused(SchedulingHorizonExceeded);
        }
        occupied := occupied + day.instants;
        selected := selected + OnDate(day.instants, date);
        date := date + 1;
        days := days - 1;
      }
      if |selected| != requested {
        return Refused(InsufficientSchedulingCapacity(requested, |selected|));
      }
      return Selected(selected);
    }

    /** Selects future release instants, existing slots counting against the days they occupy. */
    method Select(policy: SchedulePolicy, notBefore: int, requested: nat, existing: seq<int>)
      returns (selection: Selection)
      modifies this
      ensures var run := SelectSlots(source, policy, notBefore, requested, existing, old(state));
              && selection == run.selection
              && (selection.Selected? ==> state == run.state)
    {
      if requested == 0 {
        return Selected([]);
      }
      var start := policy.timezone.DateOf(notBefore);
      if notBefore < 0 || start.None? {
        return Refused(InvalidSchedulingTimestamp(notBefore));
      }
      selection := Walk(policy, notBefore, requested, existing, start.value, MAX_SCHEDULING_HORIZON_DAYS);
      if selection.Selected? {
        selection := Selected(SortSlots(selection.slots));
      }
    }

    method HowMany(policy: SchedulePolicy, existingToday: nat, remaining: nat) returns (wanted: nat)
      requires existingToday < policy.dailyReleases.maximum
      modifies this
      ensures (wanted, state) == Wanted(source, policy, existingToday, remaining, old(state))
    {
      var dailyMinimum := Minus(policy.dailyReleases.minimum, existingToday);
      var dailyMaximum := Min(policy.dailyReleases.maximum - existingToday, remaining);
      if remaining <= dailyMinimum {
        wanted := remaining;
      } else {
        var lower := Min(dailyMinimum, dailyMaximum);
        var extra := NextIndex(dailyMaximum - lower + 1);
        wanted := lower + extra;
      }
    }
  }

  lemma TimesOfMore(slots: seq<PlannedSlot>, instants: seq<int>, date: int, existing: seq<int>)
    ensures Times(slots + OnDate(instants, date)) == Times(slots) + instants
    ensures existing + Times(slots + OnDate(instants, date)) == existing + Times(slots) + instants
  {
  }

  lemma NextDay<S>(
    source: Source<S>, policy: SchedulePolicy, notBefore: int, requested: nat, existing: seq<int>,
    date: int, days: nat, selected: seq<PlannedSlot>, state: S, occupied: seq<int>, day: DayRun<S>)
    requires |selected| < requested && days > 0 && occupied == existing + Times(selected)
    requires day == SelectDay(source, policy, date, notBefore, requested - |selected|, occupied, state)
    ensures var whole := SelectDays(source, policy, notBefore, requested, existing, date, days, selected, state);
            && (day.DayRefused? ==> whole.selection == Refused(day.error))
            && (day.DayRanDry? ==> whole.selection == Aborted)
            && (day.Day? ==>
                  var more := selected + OnDate(day.instants, date);
                  && |more| <= requested
                  && occupied + day.instants == existing + Times(more)
                  && if date >= policy.timezone.lastDate then whole.selection == Refused(SchedulingHorizonExceeded)
                     else whole == SelectDays(source, policy, notBefore, requested, existing, date + 1, days - 1, more, day.state))
  {
    DayTakesNoMore(source, policy, date, notBefore, requested - |selected|, occupied, state);
    if day.Day? {
      TimesOfMore(selected, day.instants, date, existing);
    }
  }

  /** The picks made so far and those still to come make up the whole day. */
  ghost predicate PickContinues(whole: DayPicks, taken: seq<int>, rest: DayPicks) {
    && (rest.RanDry? ==> whole.RanDry?)
    && (rest.Picked? ==> whole == Picked(taken + rest.instants))
  }

  lemma PickStep<S>(
    whole: DayPicks, taken: seq<int>, candidates: seq<int>, source: Source<S>, state: S, count: nat, spacingMs: int)
    requires count > 0 && candidates != []
    requires PickContinues(whole, taken, PickDay(candidates, Outputs(source, state, count), spacingMs))
    ensures var next := source.Next(state);
            var index := source.Read(next) % |candidates|;
            PickContinues(whole, taken + [candidates[index]],
                          PickDay(AfterPick(candidates, index, spacingMs), Outputs(source, next, count - 1), spacingMs))
  {
    var next := source.Next(state);
    var index := source.Read(next) % |candidates|;
    assert Outputs(source, state, count)[1..] == Outputs(source, next, count - 1);
    var later := PickDay(AfterPick(candidates, index, spacingMs), Outputs(source, next, count - 1), spacingMs);
    if later.Picked? {
      assert taken + ([candidates[index]] + later.instants) == taken + [candidates[index]] + later.instants;
    }
  }
}
