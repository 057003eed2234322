/** The minutes a policy offers on one civil date, the only place that knows the window rules. */
module Candidates {
  import opened Wrappers
  import opened SchedulePolicies

  function Abs(x: int): nat {
    if x < 0 then -x else x
  }

  /** Far enough from every instant already taken. */
  predicate Clear(instant: int, occupied: seq<int>, spacingMs: int) {
    forall other | other in occupied :: Abs(instant - other) >= spacingMs
  }

  function RoundUpToMinute(instant: int): int {
    instant / MINUTE_MS * MINUTE_MS + if instant % MINUTE_MS == 0 then 0 else MINUTE_MS
  }

  /** The free minutes of one window, from `candidate` up to but not including `end`. */
  function FreeMinutes(candidate: int, end: int, occupied: seq<int>, spacingMs: int): seq<int>
    decreases end - candidate
  {
    if candidate >= end then []
    else (if Clear(candidate, occupied, spacingMs) then [candidate] else [])
         + FreeMinutes(candidate + MINUTE_MS, end, occupied, spacingMs)
  }

  function CandidatesIn(
    zone: Zone, windows: seq<DailyWindow>, date: int, notBefore: int, occupied: seq<int>, spacingMs: int)
    : Result<seq<int>, PolicyError>
  {
    if windows == [] then Ok([])
    else if zone.InstantOf(date, windows[0].start).None? || zone.InstantOf(date, windows[0].end).None? then
      Err(SchedulingHorizonExceeded)
    else
      var start := zone.InstantOf(date, windows[0].start).value;
      var first := RoundUpToMinute(if start >= notBefore then start else notBefore);
      var end := zone.InstantOf(date, windows[0].end).value;
      var rest :- CandidatesIn(zone, windows[1..], date, notBefore, occupied, spacingMs);
      Ok(FreeMinutes(first, end, occupied, spacingMs) + rest)
  }

  function CandidatesForDate(
    policy: SchedulePolicy, date: int, notBefore: int, occupied: seq<int>, spacingMs: int)
    : Result<seq<int>, PolicyError>
  {
    CandidatesIn(policy.timezone, policy.windows, date, notBefore, occupied, spacingMs)
  }

  /** The instant lies inside one of the windows, as they fall on this date in this zone. */
  ghost predicate InWindow(zone: Zone, windows: seq<DailyWindow>, date: int, instant: int) {
    exists w | w in windows ::
      && zone.InstantOf(date, w.start).Some? && zone.InstantOf(date, w.end).Some?
      && zone.InstantOf(date, w.start).value <= instant < zone.InstantOf(date, w.end).value
  }

  lemma RoundUpIsLeast(instant: int, minute: int)
    requires minute % MINUTE_MS == 0
    ensures RoundUpToMinute(instant) % MINUTE_MS == 0
    ensures instant <= minute <==> RoundUpToMinute(instant) <= minute
  {
    var q := instant / MINUTE_MS;
    assert instant == q * MINUTE_MS + instant % MINUTE_MS;
    var k := minute / MINUTE_MS;
    assert minute == k * MINUTE_MS;
  }

  lemma {:induction false} FreeMinutesExactly(candidate: int, end: int, occupied: seq<int>, spacingMs: int, x: int)
    requires candidate % MINUTE_MS == 0
    ensures x in FreeMinutes(candidate, end, occupied, spacingMs)
       <==> candidate <= x < end && x % MINUTE_MS == 0 && Clear(x, occupied, spacingMs)
    decreases end - candidate
  {
    if candidate < end {
      FreeMinutesExactly(candidate + MINUTE_MS, end, occupied, spacingMs, x);
      assert x % MINUTE_MS == 0 && candidate < x ==> candidate + MINUTE_MS <= x;
    }
  }

  lemma {:induction false} CandidatesInExactly(
    zone: Zone, windows: seq<DailyWindow>, date: int, notBefore: int, occupied: seq<int>, spacingMs: int, x: int)
    requires CandidatesIn(zone, windows, date, notBefore, occupied, spacingMs).Ok?
    ensures x in CandidatesIn(zone, windows, date, notBefore, occupied, spacingMs).value
       <==> x % MINUTE_MS == 0 && notBefore <= x && InWindow(zone, windows, date, x) && Clear(x, occupied, spacingMs)
  {
    if windows != [] {
      CandidatesInExactly(zone, windows[1..], date, notBefore, occupied, spacingMs, x);
      var start := zone.InstantOf(date, windows[0].start).value;
      var earliest := if start >= notBefore then start else notBefore;
      var end := zone.InstantOf(date, windows[0].end).value;
      RoundUpIsLeast(earliest, 0);
      if x % MINUTE_MS == 0 {
        RoundUpIsLeast(earliest, x);
      }
      FreeMinutesExactly(RoundUpToMinute(earliest), end, occupied, spacingMs, x);
      assert windows == [windows[0]] + windows[1..];
      assert InWindow(zone, windows, date, x) <==> start <= x < end || InWindow(zone, windows[1..], date, x);
    }
  }

  /** The candidates of a date are exactly the whole minutes that are not too early, inside a
      window, and far enough from everything occupied, whatever the zone does that day. */
  lemma CandidatesExactly(
    policy: SchedulePolicy, date: int, notBefore: int, occupied: seq<int>, spacingMs: int, x: int)
    requires CandidatesForDate(policy, date, notBefore, occupied, spacingMs).Ok?
    ensures x in CandidatesForDate(policy, date, notBefore, occupied, spacingMs).value
       <==> x % MINUTE_MS == 0 && notBefore <= x && InWindow(policy.timezone, policy.windows, date, x)
            && Clear(x, occupied, spacingMs)
  {
    CandidatesInExactly(policy.timezone, policy.windows, date, notBefore, occupied, spacingMs, x);
  }

  /** Whether a date's candidates can be listed depends only on the zone and the windows. */
  lemma {:induction false} ListableRegardless(
    zone: Zone, windows: seq<DailyWindow>, date: int,
    notBefore: int, occupied: seq<int>, notBefore': int, occupied': seq<int>, spacingMs: int)
    ensures var a := CandidatesIn(zone, windows, date, notBefore, occupied, spacingMs);
            var b := CandidatesIn(zone, windows, date, notBefore', occupied', spacingMs);
            (a.Ok? <==> b.Ok?) && (a.Err? ==> a.error == SchedulingHorizonExceeded)
  {
    if windows != [] {
      ListableRegardless(zone, windows[1..], date, notBefore, occupied, notBefore', occupied', spacingMs);
    }
  }

  /** Steps through one window a minute at a time. */
  method ListFreeMinutes(first: int, end: int, occupied: seq<int>, spacingMs: int) returns (free: seq<int>)
    ensures free == FreeMinutes(first, end, occupied, spacingMs)
  {
    free := [];
    var candidate := first;
    while candidate < end
      invariant free + FreeMinutes(candidate, end, occupied, spacingMs) == FreeMinutes(first, end, occupied, spacingMs)
      decreases end - candidate
    {
      if Clear(candidate, occupied, spacingMs) {
        free := free + [candidate];
      }
      candidate := candidate + MINUTE_MS;
    }
  }

  /** The list found so far and what is still to come make up the whole. */
  ghost predicate Continues(
    whole: Result<seq<int>, PolicyError>, found: seq<int>, rest: Result<seq<int>, PolicyError>)
  {
    && (rest.Ok? ==> whole.Ok? && whole.value == found + rest.value)
    && (rest.Err? ==> whole == rest && rest.error == SchedulingHorizonExceeded)
  }

  lemma NextWindow(
    whole: Result<seq<int>, PolicyError>, found: seq<int>,
    zone: Zone, windows: seq<DailyWindow>, i: nat, date: int, notBefore: int, occupied: seq<int>, spacingMs: int)
    requires i < |windows|
    requires Continues(whole, found, CandidatesIn(zone, windows[i..], date, notBefore, occupied, spacingMs))
    ensures var start, end := zone.InstantOf(date, windows[i].start), zone.InstantOf(date, windows[i].end);
            if start.None? || end.None? then whole == Err(SchedulingHorizonExceeded)
            else
              var first := RoundUpToMinute(if start.value >= notBefore then start.value else notBefore);
              Continues(whole, found + FreeMinutes(first, end.value, occupied, spacingMs),
                        CandidatesIn(zone, windows[i + 1..], date, notBefore, occupied, spacingMs))
  {
    ListableRegardless(zone, windows[i + 1..], date, notBefore, occupied, notBefore, occupied, spacingMs);
    assert windows[i..][1..] == windows[i + 1..];
  }

  /** Lists the candidates of a date window by window. */
  method ListCandidates(
    policy: SchedulePolicy, date: int, notBefore: int, occupied: seq<int>, spacingMs: int)
    returns (r: Result<seq<int>, PolicyError>)
    ensures r == CandidatesForDate(policy, date, notBefore, occupied, spacingMs)
  {
    var zone, windows := policy.timezone, policy.windows;
    var candidates: seq<int> := [];
    ghost var whole := CandidatesIn(zone, windows, date, notBefore, occupied, spacingMs);
    ListableRegardless(zone, windows, date, notBefore, occupied, notBefore, occupied, spacingMs);
    assert windows[0..] == windows;
    for i := 0 to |windows|
      invariant Continues(whole, candidates, CandidatesIn(zone, windows[i..], date, notBefore, occupied, spacingMs))
    {
      NextWindow(whole, candidates, zone, windows, i, date, notBefore, occupied, spacingMs);
      var start, end := zone.InstantOf(date, windows[i].start), zone.InstantOf(date, windows[i].end);
      if start.None? || end.None? {
        return Err(SchedulingHorizonExceeded);
      }
      var first := RoundUpToMinute(if start.value >= notBefore then start.value else notBefore);
      var free := ListFreeMinutes(first, end.value, occupied, spacingMs);
      candidates := candidates + free;
    }
    assert candidates + [] == candidates;
    return Ok(candidates);
  }
}
