/** The check of one exact requested instant (crates/core/src/schedule.rs, `validate_requested_slot`). */
module RequestedSlots {
  import opened Wrappers
  import opened SchedulePolicies
  import opened Candidates
  import opened PickLoop
  import opened SlotGenerators
  import opened SelectionSoundness

  /** Slots other than the requested instant itself. */
  function Others(existing: seq<int>, requested: int): (r: seq<int>)
    ensures forall x :: x in r <==> x in existing && x != requested
  {
    if existing == [] then []
    else (if existing[0] != requested then [existing[0]] else []) + Others(existing[1..], requested)
  }

  function NearestGap(instants: seq<int>, requested: int): Option<nat> {
    if instants == [] then None
    else
      var rest := NearestGap(instants[1..], requested);
      var gap := Abs(instants[0] - requested);
      if rest.Some? && rest.value < gap then rest else Some(gap)
  }

  function ValidateRequestedSlot(policy: SchedulePolicy, requested: int, notBefore: int, existing: seq<int>)
    : Result<PlannedSlot, PolicyError>
  {
    if requested < 0 || policy.timezone.DateOf(requested).None? then Err(InvalidSchedulingTimestamp(requested))
    else if requested < notBefore then Err(RequestedTimeInPast)
    else
      var date := policy.timezone.DateOf(requested).value;
      if WeekdayOf(date) !in policy.allowedDays then Err(RequestedDayNotAllowed(WeekdayOf(date)))
      else
        var windowMinutes :- CandidatesForDate(policy, date, requested, [], policy.SpacingMs());
        if requested !in windowMinutes then Err(RequestedTimeOutsideWindows)
        else
          var others := Others(existing, requested);
          var gap := NearestGap(others, requested);
          if gap.Some? && gap.value < policy.SpacingMs() then
            Err(RequestedTimeTooClose(policy.minimumSpacingMinutes, gap.value / MINUTE_MS))
          else if CountOn(policy.timezone, others, date) >= policy.dailyReleases.maximum then
            Err(RequestedDayIsFull(date, policy.dailyReleases.maximum))
          else Ok(PlannedSlot(requested, date))
  }

  lemma {:induction false} NearestGapIsNearest(instants: seq<int>, requested: int)
    ensures var gap := NearestGap(instants, requested);
            && (gap.None? <==> instants == [])
            && (gap.Some? ==> exists x | x in instants :: Abs(x - requested) == gap.value)
            && (gap.Some? ==> forall x | x in instants :: gap.value <= Abs(x - requested))
  {
    if instants != [] {
      NearestGapIsNearest(instants[1..], requested);
      assert instants[0] in instants;
      assert forall x :: x in instants <==> x == instants[0] || x in instants[1..];
    }
  }

  lemma GapDecidesClear(instants: seq<int>, requested: int, spacingMs: int)
    ensures var gap := NearestGap(instants, requested);
            Clear(requested, instants, spacingMs) <==> gap.None? || gap.value >= spacingMs
  {
    NearestGapIsNearest(instants, requested);
    var gap := NearestGap(instants, requested);
    if gap.Some? {
      var x :| x in instants && Abs(x - requested) == gap.value;
      assert Abs(requested - x) == gap.value;
    }
  }

  /** The rules a requested instant must meet, read off without the candidate list. */
  ghost predicate Requestable(policy: SchedulePolicy, requested: int, notBefore: int, existing: seq<int>) {
    && requested >= 0 && notBefore <= requested && policy.timezone.DateOf(requested).Some?
    && var date := policy.timezone.DateOf(requested).value;
       && SlotAllowed(policy, notBefore, Others(existing, requested), PlannedSlot(requested, date))
       && CountOn(policy.timezone, Others(existing, requested), date) < policy.dailyReleases.maximum
  }

  /** A requested instant is accepted exactly when it meets every rule, and is then kept as asked. */
  lemma AcceptedExactly(policy: SchedulePolicy, requested: int, notBefore: int, existing: seq<int>)
    requires policy.Valid()
    ensures var r := ValidateRequestedSlot(policy, requested, notBefore, existing);
            && (r.Ok? <==> Requestable(policy, requested, notBefore, existing))
            && (r.Ok? ==> r.value.selectedAt == requested && policy.timezone.DateOf(requested) == Some(r.value.localDate))
  {
    if requested >= 0 && policy.timezone.DateOf(requested).Some? {
      var date := policy.timezone.DateOf(requested).value;
      var others, spacingMs := Others(existing, requested), policy.SpacingMs();
      ListableRegardless(policy.timezone, policy.windows, date, requested, [], 0, [], spacingMs);
      if CandidatesForDate(policy, date, requested, [], spacingMs).Ok? {
        CandidatesExactly(policy, date, requested, [], spacingMs, requested);
      }
      GapDecidesClear(others, requested, spacingMs);
    }
  }

  lemma {:induction false} OthersOfNew(existing: seq<int>, requested: int)
    requires requested !in existing
    ensures Others(existing, requested) == existing
  {
    if existing != [] {
      assert existing[0] in existing;
      assert requested !in existing[1..];
      OthersOfNew(existing[1..], requested);
    }
  }

  /** For an instant nobody holds yet, the validator accepts exactly what the generator could draw:
      the date's own candidate list contains it, the day is allowed, and the day has room. */
  lemma AgreesWithGenerator(policy: SchedulePolicy, requested: int, notBefore: int, existing: seq<int>)
    requires policy.Valid() && requested !in existing && 0 <= notBefore
    ensures ValidateRequestedSlot(policy, requested, notBefore, existing).Ok?
       <==> && policy.timezone.DateOf(requested).Some?
            && var date := policy.timezone.DateOf(requested).value;
               var candidates := CandidatesForDate(policy, date, notBefore, existing, policy.SpacingMs());
               && WeekdayOf(date) in policy.allowedDays
               && candidates.Ok? && requested in candidates.value
               && CountOn(policy.timezone, existing, date) < policy.dailyReleases.maximum
  {
    AcceptedExactly(policy, requested, notBefore, existing);
    OthersOfNew(existing, requested);
    if policy.timezone.DateOf(requested).Some? {
      var date := policy.timezone.DateOf(requested).value;
      ListableRegardless(policy.timezone, policy.windows, date, notBefore, existing, 0, [], policy.SpacingMs());
      if CandidatesForDate(policy, date, notBefore, existing, policy.SpacingMs()).Ok? {
        CandidatesExactly(policy, date, notBefore, existing, policy.SpacingMs(), requested);
      }
    }
  }

  /** The slot a unit already holds is never its own competitor. */
  lemma HeldSlotIsNoConflict(policy: SchedulePolicy, requested: int, notBefore: int, existing: seq<int>)
    ensures ValidateRequestedSlot(policy, requested, notBefore, existing)
         == ValidateRequestedSlot(policy, requested, notBefore, Others(existing, requested))
  {
    OthersOfNew(Others(existing, requested), requested);
  }

  /** Accepting an instant keeps the repository's slots spaced exactly when nobody held it before:
      the check skips every slot equal to the request, so a second unit can be given the same one. */
  lemma AcceptedKeepsSpacing(policy: SchedulePolicy, requested: int, notBefore: int, existing: seq<int>)
    requires policy.Valid() && ValidateRequestedSlot(policy, requested, notBefore, existing).Ok?
    requires Spread(existing, policy.SpacingMs())
    ensures Spread(existing + [requested], policy.SpacingMs()) <==> requested !in existing
  {
    AcceptedExactly(policy, requested, notBefore, existing);
    hide ValidateRequestedSlot, InWindow, CandidatesForDate;
    var all := existing + [requested];
    if requested in existing {
      var i :| 0 <= i < |existing| && existing[i] == requested;
      assert all[i] == all[|existing|];
    } else {
      OthersOfNew(existing, requested);
      forall i, j | 0 <= i < j < |all| ensures Abs(all[i] - all[j]) >= policy.SpacingMs() {
        if j == |existing| {
          assert existing[i] in existing;
        } else {
          assert Abs(existing[i] - existing[j]) >= policy.SpacingMs();
        }
      }
    }
  }

  /** Accepting an instant nobody held keeps its day within the daily maximum. */
  lemma AcceptedKeepsMaximum(policy: SchedulePolicy, requested: int, notBefore: int, existing: seq<int>)
    requires policy.Valid() && ValidateRequestedSlot(policy, requested, notBefore, existing).Ok? && requested !in existing
    ensures WithinDailyMaximum(policy, existing, [requested])
  {
    AcceptedExactly(policy, requested, notBefore, existing);
    OthersOfNew(existing, requested);
  }

  // ------------------------------------- the two code paths agree on a selection

  function Without(slots: seq<PlannedSlot>, i: nat): seq<PlannedSlot>
    requires i < |slots|
  {
    slots[..i] + slots[i + 1..]
  }

  lemma CountWithout(zone: Zone, slots: seq<PlannedSlot>, i: nat, date: int)
    requires i < |slots| && zone.DateOf(slots[i].selectedAt) == Some(date)
    ensures CountOn(zone, Times(slots), date) == CountOn(zone, Times(Without(slots, i)), date) + 1
  {
    var before, after := Times(slots[..i]), Times(slots[i + 1..]);
    assert Times(slots) == before + ([slots[i].selectedAt] + after);
    assert Times(Without(slots, i)) == before + after;
    CountOnAppend(zone, before, [slots[i].selectedAt] + after, date);
    CountOnAppend(zone, [slots[i].selectedAt], after, date);
    CountOnAppend(zone, before, after, date);
  }

  lemma SpacedByMeansApart(times: seq<int>, gap: nat, i: nat, j: nat)
    requires SpacedBy(times, gap) && i < j < |times|
    ensures times[i] + gap <= times[j]
  {
    var rest := times[i..];
    forall k | 0 <= k < |rest| - 1 ensures rest[k] + gap <= rest[k + 1] {
      assert times[i + k] + gap <= times[i + k + 1];
    }
    SpacedFrom(rest, gap, j - i);
  }

  lemma ClearOfTheRest(slots: seq<PlannedSlot>, i: nat, gap: nat)
    requires i < |slots| && SpacedBy(Times(slots), gap)
    ensures Clear(slots[i].selectedAt, Times(Without(slots, i)), gap)
  {
    var rest := Times(Without(slots, i));
    forall t | t in rest ensures Abs(slots[i].selectedAt - t) >= gap {
      var k :| 0 <= k < |rest| && rest[k] == t;
      if k < i {
        SpacedByMeansApart(Times(slots), gap, k, i);
      } else {
        SpacedByMeansApart(Times(slots), gap, i, k + 1);
      }
    }
  }

  /** Every slot the generator selects is one the validator accepts, given the slots that already
      existed and all the other selected ones. */
  lemma SelectedSlotsAreAccepted<S>(
    source: Source<S>, policy: SchedulePolicy, notBefore: int, requested: nat, existing: seq<int>, state: S, i: nat)
    requires policy.Valid() && Coherent(policy.timezone)
    requires SelectSlots(source, policy, notBefore, requested, existing, state).selection.Selected?
    requires i < |SelectSlots(source, policy, notBefore, requested, existing, state).selection.slots|
    ensures var slots := SelectSlots(source, policy, notBefore, requested, existing, state).selection.slots;
            ValidateRequestedSlot(policy, slots[i].selectedAt, notBefore, existing + Times(Without(slots, i))) == Ok(slots[i])
  {
    SelectionIsSound(source, policy, notBefore, requested, existing, state);
    SelectionWithinDailyMaximum(source, policy, notBefore, requested, existing, state);
    NotBeforeIsValid(source, policy, notBefore, requested, existing, state);
    AcceptedAmongOthers(policy, notBefore, existing, SelectSlots(source, policy, notBefore, requested, existing, state).selection.slots, i);
  }

  lemma NotBeforeIsValid<S>(
    source: Source<S>, policy: SchedulePolicy, notBefore: int, requested: nat, existing: seq<int>, state: S)
    ensures var r := SelectSlots(source, policy, notBefore, requested, existing, state).selection;
            r.Selected? && r.slots != [] ==> notBefore >= 0
  {
  }

  lemma AcceptedAmongOthers(policy: SchedulePolicy, notBefore: int, existing: seq<int>, slots: seq<PlannedSlot>, i: nat)
    requires policy.Valid() && Coherent(policy.timezone) && notBefore >= 0 && i < |slots|
    requires SpacedBy(Times(slots), policy.SpacingMs()) && AllAllowed(policy, notBefore, existing, slots)
    requires WithinDailyMaximum(policy, existing, Times(slots))
    ensures ValidateRequestedSlot(policy, slots[i].selectedAt, notBefore, existing + Times(Without(slots, i))) == Ok(slots[i])
  {
    var slot, rest := slots[i], Times(Without(slots, i));
    var others := existing + rest;
    assert slot in slots && SlotAllowed(policy, notBefore, existing, slot);
    SlotFallsOnItsDate(policy, notBefore, existing, slot);
    ClearOfTheRest(slots, i, policy.SpacingMs());
    ClearOfBoth(slot.selectedAt, existing, rest, policy.SpacingMs());
    OthersOfNew(others, slot.selectedAt);
    CountWithout(policy.timezone, slots, i, slot.localDate);
    CountOnAppend(policy.timezone, existing, rest, slot.localDate);
    AcceptedExactly(policy, slot.selectedAt, notBefore, others);
  }

  // -------------------------------------------- the order of slots is irrelevant

  function Drop(instants: seq<int>, i: nat): seq<int>
    requires i < |instants|
  {
    instants[..i] + instants[i + 1..]
  }

  lemma DropOne(zone: Zone, instants: seq<int>, i: nat, date: int)
    requires i < |instants|
    ensures multiset(Drop(instants, i)) == multiset(instants) - multiset{instants[i]}
    ensures CountOn(zone, instants, date)
         == CountOn(zone, Drop(instants, i), date) + if zone.DateOf(instants[i]) == Some(date) then 1 else 0
  {
    var before, after := instants[..i], instants[i + 1..];
    assert instants == before + ([instants[i]] + after);
    CountOnAppend(zone, before, [instants[i]] + after, date);
    CountOnAppend(zone, [instants[i]], after, date);
    CountOnAppend(zone, before, after, date);
  }

  lemma {:induction false} CountOnPermuted(zone: Zone, a: seq<int>, b: seq<int>, date: int)
    requires multiset(a) == multiset(b)
    ensures CountOn(zone, a, date) == CountOn(zone, b, date)
    decreases |a|
  {
    if a == [] {
      assert |multiset(b)| == 0;
    } else {
      assert a[0] in multiset(b);
      var i :| 0 <= i < |b| && b[i] == a[0];
      DropOne(zone, a, 0, date);
      DropOne(zone, b, i, date);
      CountOnPermuted(zone, Drop(a, 0), Drop(b, i), date);
    }
  }

  lemma SameNearest(a: seq<int>, b: seq<int>, requested: int)
    requires forall x :: x in a <==> x in b
    ensures NearestGap(a, requested) == NearestGap(b, requested)
  {
    NearestGapIsNearest(a, requested);
    NearestGapIsNearest(b, requested);
    if a != [] {
      assert a[0] in b;
    }
    if b != [] {
      assert b[0] in a;
    }
  }

  lemma {:induction false} OthersCounted(existing: seq<int>, requested: int, x: int)
    ensures multiset(Others(existing, requested))[x] == if x == requested then 0 else multiset(existing)[x]
  {
    if existing != [] {
      OthersCounted(existing[1..], requested, x);
      assert existing == [existing[0]] + existing[1..];
    }
  }

  /** The verdict on a requested instant does not depend on the order its competitors are listed in. */
  lemma VerdictIgnoresOrder(policy: SchedulePolicy, requested: int, notBefore: int, a: seq<int>, b: seq<int>)
    requires multiset(a) == multiset(b)
    ensures ValidateRequestedSlot(policy, requested, notBefore, a) == ValidateRequestedSlot(policy, requested, notBefore, b)
  {
    var a', b' := Others(a, requested), Others(b, requested);
    forall x ensures multiset(a')[x] == multiset(b')[x] {
      OthersCounted(a, requested, x);
      OthersCounted(b, requested, x);
    }
    assert multiset(a') == multiset(b');
    forall x ensures x in a' <==> x in b' {
      assert x in multiset(a') <==> x in multiset(b');
    }
    SameNearest(a', b', requested);
    if policy.timezone.DateOf(requested).Some? {
      CountOnPermuted(policy.timezone, a', b', policy.timezone.DateOf(requested).value);
    }
  }
}
