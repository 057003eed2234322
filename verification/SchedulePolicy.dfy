/** Civil time, scheduling policies and their construction (crates/core/src/schedule.rs). */
module SchedulePolicies {
  import opened Wrappers

  const MINUTE_MS: int := 60_000
  const DAY_MS: int := 86_400_000
  const MINUTES_PER_DAY: nat := 1440
  const MAX_DAILY_RELEASES: nat := 24
  const MAX_WINDOWS: nat := 32
  const MAX_SCHEDULING_HORIZON_DAYS: nat := 366

  datatype Weekday = Monday | Tuesday | Wednesday | Thursday | Friday | Saturday | Sunday

  /** Civil dates are day numbers counted from 1970-01-01, which was a Thursday. */
  function WeekdayOf(date: int): Weekday {
    match (date + 3) % 7
    case 0 => Monday
    case 1 => Tuesday
    case 2 => Wednesday
    case 3 => Thursday
    case 4 => Friday
    case 5 => Saturday
    case _ => Sunday
  }

  /** A validated time zone, known only through the conversions the scheduler performs with it.
      Each conversion can fail at the ends of the supported calendar. */
  datatype Zone = Zone(
    toDate: int -> Option<int>,
    toInstant: (int, nat) -> Option<int>,
    lastDate: int)
  {
    /** The civil date an instant falls on. */
    function DateOf(instant: int): Option<int> { toDate(instant) }

    /** The instant of a clock time on a date. */
    function InstantOf(date: int, minute: nat): Option<int> { toInstant(date, minute) }
  }

  /** Every instant between two clock times of a date falls on that date. It fails only for zones
      that skip or repeat a whole civil date. */
  ghost predicate Coherent(zone: Zone) {
    forall date: int, from: nat, to: nat, instant: int ::
      to < MINUTES_PER_DAY && zone.InstantOf(date, from).Some? && zone.InstantOf(date, to).Some?
      && zone.InstantOf(date, from).value <= instant < zone.InstantOf(date, to).value
      ==> zone.DateOf(instant) == Some(date)
  }

  /** A zone with one fixed offset from UTC. */
  function FixedOffset(offsetMs: int, lastDate: int): Zone {
    Zone((instant: int) => Some((instant + offsetMs) / DAY_MS),
         (date: int, minute: nat) => Some(date * DAY_MS + minute * MINUTE_MS - offsetMs),
         lastDate)
  }

  /** An inclusive start and an exclusive end, in minutes after midnight. */
  datatype Interval = Interval(start: nat, end: nat)
  type DailyWindow = w: Interval | w.start < w.end < MINUTES_PER_DAY witness Interval(0, 1)

  datatype Range = Range(minimum: nat, maximum: nat)
  type DailyReleaseRange = r: Range | 1 <= r.maximum <= MAX_DAILY_RELEASES && r.minimum <= r.maximum
    witness Range(1, 1)

  datatype MissedWindowBehavior = RescheduleForward | CatchUp(maxReleases: nat)

  datatype SchedulePolicy = SchedulePolicy(
    timezone: Zone,
    allowedDays: set<Weekday>,
    windows: seq<DailyWindow>,
    dailyReleases: DailyReleaseRange,
    minimumSpacingMinutes: nat,
    missedWindowBehavior: MissedWindowBehavior)
  {
    function SpacingMs(): int { minimumSpacingMinutes * MINUTE_MS }

    /** What `New` establishes. */
    predicate Valid() {
      && allowedDays != {}
      && windows != []
      && Disjoint(windows)
      && 1 <= minimumSpacingMinutes <= MINUTES_PER_DAY
    }
  }

  datatype PolicyError =
    | NoAllowedDays
    | NoWindows
    | TooManyWindows
    | OverlappingWindows
    | InvalidMinimumSpacing(minutes: nat)
    | DailyLimitExceedsWindowCapacity(maximum: nat, capacity: nat)
    | InvalidCatchUpLimit(limit: nat)
    | InvalidSchedulingTimestamp(instant: int)
    | InsufficientSchedulingCapacity(requested: nat, selected: nat)
    | SchedulingHorizonExceeded
    | RequestedTimeInPast
    | RequestedDayNotAllowed(weekday: Weekday)
    | RequestedTimeOutsideWindows
    | RequestedTimeTooClose(requiredMinutes: nat, actualMinutes: int)
    | RequestedDayIsFull(date: int, maximum: nat)

  // ---------------------------------------------------------------- windows

  predicate SortedByStart(windows: seq<DailyWindow>) {
    forall i, j | 0 <= i < j < |windows| :: windows[i].start <= windows[j].start
  }

  /** Adjacent windows do not overlap: the check made after sorting. */
  predicate Disjoint(windows: seq<DailyWindow>) {
    forall i | 0 <= i < |windows| - 1 :: windows[i].end <= windows[i + 1].start
  }

  function InsertWindow(window: DailyWindow, sorted: seq<DailyWindow>): (r: seq<DailyWindow>)
    ensures |r| == |sorted| + 1
    ensures forall w :: w in r <==> w == window || w in sorted
  {
    if sorted == [] then [window]
    else if window.start <= sorted[0].start then [window] + sorted
    else [sorted[0]] + InsertWindow(window, sorted[1..])
  }

  function SortWindows(windows: seq<DailyWindow>): (r: seq<DailyWindow>)
    ensures |r| == |windows|
    ensures forall w :: w in r <==> w in windows
  {
    if windows == [] then [] else InsertWindow(windows[0], SortWindows(windows[1..]))
  }

  lemma {:induction false} InsertKeepsWindows(window: DailyWindow, sorted: seq<DailyWindow>)
    ensures multiset(InsertWindow(window, sorted)) == multiset{window} + multiset(sorted)
  {
    if sorted != [] && window.start > sorted[0].start {
      InsertKeepsWindows(window, sorted[1..]);
      assert sorted == [sorted[0]] + sorted[1..];
    }
  }

  lemma {:induction false} SortingKeepsWindows(windows: seq<DailyWindow>)
    ensures multiset(SortWindows(windows)) == multiset(windows)
  {
    if windows != [] {
      SortingKeepsWindows(windows[1..]);
      InsertKeepsWindows(windows[0], SortWindows(windows[1..]));
      assert windows == [windows[0]] + windows[1..];
    }
  }

  lemma {:induction false} InsertKeepsSorted(window: DailyWindow, sorted: seq<DailyWindow>)
    requires SortedByStart(sorted)
    ensures SortedByStart(InsertWindow(window, sorted))
  {
    if sorted != [] && window.start > sorted[0].start {
      InsertKeepsSorted(window, sorted[1..]);
      var tail := InsertWindow(window, sorted[1..]);
      forall w | w in tail ensures sorted[0].start <= w.start {
        assert w == window || w in sorted[1..];
      }
    }
  }

  lemma {:induction false} SortWindowsSorts(windows: seq<DailyWindow>)
    ensures SortedByStart(SortWindows(windows))
  {
    if windows != [] {
      SortWindowsSorts(windows[1..]);
      InsertKeepsSorted(windows[0], SortWindows(windows[1..]));
    }
  }

  /** A minute of the day at which some window is open. */
  predicate Open(windows: seq<DailyWindow>, minute: int) {
    exists w | w in windows :: w.start <= minute < w.end
  }

  // --------------------------------------------------------------- capacity

  /** Minutes chosen earliest-first, never before `next`. */
  function GreedyMinutes(windows: seq<DailyWindow>, next: nat, spacing: nat): seq<int>
    requires spacing > 0
    decreases |windows|, if windows == [] then 0 else windows[0].end - next
  {
    if windows == [] then []
    else
      var candidate := if next >= windows[0].start then next else windows[0].start;
      if candidate < windows[0].end
      then [candidate] + GreedyMinutes(windows, candidate + spacing, spacing)
      else GreedyMinutes(windows[1..], candidate, spacing)
  }

  predicate SpacedBy(instants: seq<int>, gap: int) {
    forall i | 0 <= i < |instants| - 1 :: instants[i] + gap <= instants[i + 1]
  }

  /** A day plan: minutes inside the windows, at or after `from`, at least `spacing` apart. */
  predicate DayPlan(minutes: seq<int>, windows: seq<DailyWindow>, from: int, spacing: nat) {
    && SpacedBy(minutes, spacing)
    && forall m | m in minutes :: from <= m && Open(windows, m)
  }

  /** One day can hold `releases` releases: some plan of that size exists. */
  ghost predicate FitsOneDay(releases: nat, windows: seq<DailyWindow>, spacing: nat) {
    exists plan :: |plan| == releases && DayPlan(plan, windows, 0, spacing)
  }

  /** Counts how many releases fit in one day, earliest slot first. */
  method SlotCapacity(windows: seq<DailyWindow>, spacing: nat) returns (count: nat)
    requires spacing > 0
    ensures count == |GreedyMinutes(windows, 0, spacing)|
  {
    var next: nat := 0;
    count := 0;
    for i := 0 to |windows|
      invariant count + |GreedyMinutes(windows[i..], next, spacing)| == |GreedyMinutes(windows, 0, spacing)|
    {
      assert windows[i..][1..] == windows[i + 1..];
      var candidate := if next >= windows[i].start then next else windows[i].start;
      while candidate < windows[i].end
        invariant windows[i].start <= candidate
        invariant count + |GreedyMinutes(windows[i..], candidate, spacing)| == |GreedyMinutes(windows, 0, spacing)|
        decreases windows[i].end - candidate
      {
        count := count + 1;
        candidate := candidate + spacing;
      }
      next := candidate;
    }
  }

  lemma PrependToPlan(minute: nat, plan: seq<int>, windows: seq<DailyWindow>, from: nat, spacing: nat)
    requires windows != [] && from <= minute && windows[0].start <= minute < windows[0].end
    requires DayPlan(plan, windows, minute + spacing, spacing)
    ensures DayPlan([minute] + plan, windows, from, spacing)
  {
    assert windows[0] in windows;
    if plan != [] {
      assert plan[0] in plan;
    }
    var extended := [minute] + plan;
    forall i | 0 <= i < |extended| - 1 ensures extended[i] + spacing <= extended[i + 1] {
      if i > 0 {
        assert plan[i - 1] + spacing <= plan[i - 1 + 1];
      }
    }
  }

  lemma WidenPlan(plan: seq<int>, windows: seq<DailyWindow>, from: nat, later: nat, spacing: nat)
    requires windows != [] && from <= later && DayPlan(plan, windows[1..], later, spacing)
    ensures DayPlan(plan, windows, from, spacing)
  {
    forall m | m in plan ensures Open(windows, m) {
      var w :| w in windows[1..] && w.start <= m < w.end;
      assert w in windows;
    }
  }

  lemma {:induction false} GreedyIsDayPlan(windows: seq<DailyWindow>, next: nat, spacing: nat)
    requires spacing > 0
    ensures DayPlan(GreedyMinutes(windows, next, spacing), windows, next, spacing)
    decreases |windows|, if windows == [] then 0 else windows[0].end - next
  {
    if windows != [] {
      var candidate := if next >= windows[0].start then next else windows[0].start;
      if candidate < windows[0].end {
        GreedyIsDayPlan(windows, candidate + spacing, spacing);
        PrependToPlan(candidate, GreedyMinutes(windows, candidate + spacing, spacing), windows, next, spacing);
      } else {
        GreedyIsDayPlan(windows[1..], candidate, spacing);
        WidenPlan(GreedyMinutes(windows[1..], candidate, spacing), windows, next, candidate, spacing);
      }
    }
  }

  lemma {:induction false} StartsAfterFirst(windows: seq<DailyWindow>, i: nat)
    requires Disjoint(windows) && i < |windows|
    ensures windows[0].start <= windows[i].start
    ensures i > 0 ==> windows[0].end <= windows[i].start
  {
    if i > 0 {
      StartsAfterFirst(windows, i - 1);
      assert windows[i - 1].end <= windows[i - 1 + 1].start;
    }
  }

  lemma {:induction false} SpacedFrom(minutes: seq<int>, gap: nat, i: nat)
    requires SpacedBy(minutes, gap) && 0 < i < |minutes|
    ensures minutes[0] + gap <= minutes[i]
  {
    if i > 1 {
      SpacedFrom(minutes, gap, i - 1);
      assert minutes[i - 1] + gap <= minutes[i - 1 + 1];
    }
  }

  lemma PlanNeedsWindow(plan: seq<int>, windows: seq<DailyWindow>, from: int, spacing: nat)
    requires plan != [] && DayPlan(plan, windows, from, spacing)
    ensures windows != []
  {
    assert Open(windows, plan[0]);
  }

  /** No plan beats the greedy one. */
  lemma {:induction false} GreedyIsOptimal(plan: seq<int>, windows: seq<DailyWindow>, next: nat, spacing: nat)
    requires spacing > 0 && Disjoint(windows)
    requires DayPlan(plan, windows, next, spacing)
    ensures |plan| <= |GreedyMinutes(windows, next, spacing)|
    decreases |windows|, if windows == [] then 0 else windows[0].end - next
  {
    if plan != [] {
      PlanNeedsWindow(plan, windows, next, spacing);
      var candidate := if next >= windows[0].start then next else windows[0].start;
      forall m | m in plan ensures candidate <= m {
        var i :| 0 <= i < |windows| && windows[i].start <= m < windows[i].end;
        StartsAfterFirst(windows, i);
      }
      if candidate < windows[0].end {
        forall m | m in plan[1..] ensures candidate + spacing <= m {
          var i :| 0 <= i < |plan[1..]| && plan[1..][i] == m;
          SpacedFrom(plan, spacing, i + 1);
          assert plan[0] in plan;
        }
        GreedyIsOptimal(plan[1..], windows, candidate + spacing, spacing);
      } else {
        forall m | m in plan ensures Open(windows[1..], m) {
          var w :| w in windows && w.start <= m < w.end;
          assert w in windows[1..];
        }
        GreedyIsOptimal(plan, windows[1..], candidate, spacing);
      }
    }
  }

  lemma PrefixIsPlan(plan: seq<int>, count: nat, windows: seq<DailyWindow>, spacing: nat)
    requires DayPlan(plan, windows, 0, spacing) && count <= |plan|
    ensures |plan[..count]| == count && DayPlan(plan[..count], windows, 0, spacing)
  {
    forall i | 0 <= i < count - 1 ensures plan[..count][i] + spacing <= plan[..count][i + 1] {
      assert plan[i] + spacing <= plan[i + 1];
    }
    forall m | m in plan[..count] ensures m in plan {
      var i :| 0 <= i < count && plan[..count][i] == m;
      assert plan[i] == m;
    }
  }

  /** The greedy count is exactly the largest number of releases one day can hold. */
  lemma CapacityIsExact(windows: seq<DailyWindow>, spacing: nat, count: nat)
    requires spacing > 0 && Disjoint(windows)
    ensures count <= |GreedyMinutes(windows, 0, spacing)| <==> FitsOneDay(count, windows, spacing)
  {
    var greedy := GreedyMinutes(windows, 0, spacing);
    GreedyIsDayPlan(windows, 0, spacing);
    if count <= |greedy| {
      PrefixIsPlan(greedy, count, windows, spacing);
      assert FitsOneDay(count, windows, spacing);
    }
    if FitsOneDay(count, windows, spacing) {
      var plan :| |plan| == count && DayPlan(plan, windows, 0, spacing);
      GreedyIsOptimal(plan, windows, 0, spacing);
    }
  }

  // ----------------------------------------------------------- construction

  /** Validates a policy, reporting the first contradiction in the order the checks are made. */
  function NewPolicy(
    timezone: Zone, allowedDays: set<Weekday>, windows: seq<DailyWindow>, dailyReleases: DailyReleaseRange,
    minimumSpacingMinutes: nat, missedWindowBehavior: MissedWindowBehavior): Result<SchedulePolicy, PolicyError>
  {
    if allowedDays == {} then Err(NoAllowedDays)
    else if windows == [] then Err(NoWindows)
    else if |windows| > MAX_WINDOWS then Err(TooManyWindows)
    else if minimumSpacingMinutes == 0 || minimumSpacingMinutes > MINUTES_PER_DAY then
      Err(InvalidMinimumSpacing(minimumSpacingMinutes))
    else
      var sorted := SortWindows(windows);
      if !Disjoint(sorted) then Err(OverlappingWindows)
      else if missedWindowBehavior.CatchUp?
              && (missedWindowBehavior.maxReleases == 0 || missedWindowBehavior.maxReleases > MAX_DAILY_RELEASES) then
        Err(InvalidCatchUpLimit(missedWindowBehavior.maxReleases))
      else
        var capacity := |GreedyMinutes(sorted, 0, minimumSpacingMinutes)|;
        if dailyReleases.maximum > capacity then
          Err(DailyLimitExceedsWindowCapacity(dailyReleases.maximum, capacity))
        else
          Ok(SchedulePolicy(timezone, allowedDays, sorted, dailyReleases, minimumSpacingMinutes, missedWindowBehavior))
  }

  predicate Apart(a: DailyWindow, b: DailyWindow) {
    a.end <= b.start || b.end <= a.start
  }

  /** No two of the windows, as listed, share a minute. */
  predicate NonOverlapping(windows: seq<DailyWindow>) {
    windows == [] || ((forall w | w in windows[1..] :: Apart(windows[0], w)) && NonOverlapping(windows[1..]))
  }

  /** Everything a policy must satisfy apart from its daily maximum. */
  ghost predicate WellFormed(
    allowedDays: set<Weekday>, windows: seq<DailyWindow>, spacing: nat, behavior: MissedWindowBehavior)
  {
    && allowedDays != {}
    && 1 <= |windows| <= MAX_WINDOWS
    && 1 <= spacing <= MINUTES_PER_DAY
    && NonOverlapping(windows)
    && (behavior.CatchUp? ==> 1 <= behavior.maxReleases <= MAX_DAILY_RELEASES)
  }


  lemma {:induction false} InsertNonOverlapping(window: DailyWindow, sorted: seq<DailyWindow>)
    ensures NonOverlapping(InsertWindow(window, sorted))
       <==> NonOverlapping(sorted) && forall w | w in sorted :: Apart(window, w)
  {
    if sorted != [] && window.start > sorted[0].start {
      InsertNonOverlapping(window, sorted[1..]);
      var result := InsertWindow(window, sorted);
      assert result[0] == sorted[0] && result[1..] == InsertWindow(window, sorted[1..]);
      assert Apart(window, sorted[0]) <==> Apart(sorted[0], window);
      assert forall w :: w in sorted <==> w == sorted[0] || w in sorted[1..];
      assert (forall w | w in result[1..] :: Apart(sorted[0], w))
        <==> Apart(sorted[0], window) && forall w | w in sorted[1..] :: Apart(sorted[0], w);
    } else {
      assert ([window] + sorted)[1..] == sorted;
    }
  }

  lemma {:induction false} SortingKeepsOverlap(windows: seq<DailyWindow>)
    ensures NonOverlapping(SortWindows(windows)) <==> NonOverlapping(windows)
  {
    if windows != [] {
      SortingKeepsOverlap(windows[1..]);
      InsertNonOverlapping(windows[0], SortWindows(windows[1..]));
    }
  }

  lemma {:induction false} NeighboursDecide(sorted: seq<DailyWindow>)
    requires SortedByStart(sorted)
    ensures Disjoint(sorted) <==> NonOverlapping(sorted)
  {
    if sorted != [] {
      NeighboursDecide(sorted[1..]);
      if Disjoint(sorted) {
        forall w | w in sorted[1..] ensures Apart(sorted[0], w) {
          var i :| 0 < i < |sorted| && sorted[i] == w;
          StartsAfterFirst(sorted, i);
        }
        assert Disjoint(sorted[1..]);
      }
      if NonOverlapping(sorted) {
        forall i | 0 <= i < |sorted| - 1 ensures sorted[i].end <= sorted[i + 1].start {
          if i == 0 {
            assert sorted[1] in sorted[1..];
          } else {
            assert sorted[1..][i - 1].end <= sorted[1..][i - 1 + 1].start;
          }
        }
      }
    }
  }

  lemma SamePlans(a: seq<DailyWindow>, b: seq<DailyWindow>, releases: nat, spacing: nat)
    requires forall w :: w in a <==> w in b
    ensures FitsOneDay(releases, a, spacing) <==> FitsOneDay(releases, b, spacing)
  {
    forall plan ensures DayPlan(plan, a, 0, spacing) <==> DayPlan(plan, b, 0, spacing) {
      assert forall m :: Open(a, m) <==> Open(b, m);
    }
  }

  /** A policy is accepted exactly when it is free of contradictions and one day really can hold
      its daily maximum; an accepted policy keeps what was asked, with its windows sorted. */
  lemma PolicyAcceptedExactly(
    timezone: Zone, allowedDays: set<Weekday>, windows: seq<DailyWindow>, dailyReleases: DailyReleaseRange,
    spacing: nat, behavior: MissedWindowBehavior)
    ensures var r := NewPolicy(timezone, allowedDays, windows, dailyReleases, spacing, behavior);
            var wellFormed := WellFormed(allowedDays, windows, spacing, behavior);
            && (r.Ok? <==> wellFormed && FitsOneDay(dailyReleases.maximum, windows, spacing))
            && (r.Err? && r.error.DailyLimitExceedsWindowCapacity?
                <==> wellFormed && !FitsOneDay(dailyReleases.maximum, windows, spacing))
            && (r.Ok? ==>
                  && r.value == SchedulePolicy(timezone, allowedDays, r.value.windows, dailyReleases, spacing, behavior)
                  && multiset(r.value.windows) == multiset(windows)
                  && SortedByStart(r.value.windows) && r.value.Valid())
  {
    var sorted := SortWindows(windows);
    hide SortWindows, GreedyMinutes, NonOverlapping, FitsOneDay, SortedByStart;
    SortWindowsSorts(windows);
    SortingKeepsWindows(windows);
    SortingKeepsOverlap(windows);
    NeighboursDecide(sorted);
    if spacing > 0 && Disjoint(sorted) {
      CapacityIsExact(sorted, spacing, dailyReleases.maximum);
      SamePlans(windows, sorted, dailyReleases.maximum, spacing);
    }
  }

  // --------------------------------------------------------------- overrides

  datatype PolicyOverride = PolicyOverride(
    timezone: Option<Zone>,
    allowedDays: Option<set<Weekday>>,
    windows: Option<seq<DailyWindow>>,
    dailyReleases: Option<DailyReleaseRange>,
    minimumSpacingMinutes: Option<nat>,
    missedWindowBehavior: Option<MissedWindowBehavior>)

  function Or<T>(replacement: Option<T>, default: T): T {
    if replacement.Some? then replacement.value else default
  }

  /** Resolves a repository override and validates the combination as one unit. */
  function WithOverride(policy: SchedulePolicy, over: PolicyOverride): Result<SchedulePolicy, PolicyError> {
    NewPolicy(
      Or(over.timezone, policy.timezone),
      Or(over.allowedDays, policy.allowedDays),
      Or(over.windows, policy.windows),
      Or(over.dailyReleases, policy.dailyReleases),
      Or(over.minimumSpacingMinutes, policy.minimumSpacingMinutes),
      Or(over.missedWindowBehavior, policy.missedWindowBehavior))
  }

  const KEEP_EVERYTHING := PolicyOverride(None, None, None, None, None, None)

  lemma {:induction false} SortingIsIdempotent(windows: seq<DailyWindow>)
    requires SortedByStart(windows)
    ensures SortWindows(windows) == windows
  {
    if windows != [] {
      SortingIsIdempotent(windows[1..]);
      assert windows == [windows[0]] + windows[1..];
    }
  }

  /** Overriding nothing in a policy that was accepted gives the same policy back. */
  lemma EmptyOverrideKeepsPolicy(
    timezone: Zone, allowedDays: set<Weekday>, windows: seq<DailyWindow>, dailyReleases: DailyReleaseRange,
    spacing: nat, behavior: MissedWindowBehavior)
    requires NewPolicy(timezone, allowedDays, windows, dailyReleases, spacing, behavior).Ok?
    ensures var policy := NewPolicy(timezone, allowedDays, windows, dailyReleases, spacing, behavior).value;
            WithOverride(policy, KEEP_EVERYTHING) == Ok(policy)
  {
    PolicyAcceptedExactly(timezone, allowedDays, windows, dailyReleases, spacing, behavior);
    SortingIsIdempotent(SortWindows(windows));
  }
}
