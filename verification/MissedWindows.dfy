/** What becomes of release times that passed while nothing could release them. */
module MissedWindows {
  import opened Wrappers
  import opened TaskGraphs
  import opened TaskLifecycle
  import opened SchedulePolicies
  import opened Candidates
  import opened SlotGenerators
  import opened SelectionSoundness
  import opened RequestedSlots
  import opened ScheduleStores
  import opened ScheduleFacts

  datatype Fate = ReleasedNow | Rescheduled | Retained | Skipped

  datatype MissedWindowOutcome = MissedWindowOutcome(
    releasedNow: seq<UnitId>, rescheduled: seq<UnitId>, retained: seq<UnitId>)

  /** One reconciliation: how many overdue units it may release, the seed it draws with, and its clock. */
  datatype Pass = NewPass(allowance: nat, seed: bv64, now: int)

  /** The seed of one draw: so many after the first, wrapping around at 64 bits. */
  function SeedAt(seed: bv64, index: nat): bv64
    decreases index
  {
    if index == 0 then seed else SeedAt(seed, index - 1) + 1
  }

  function Allowance(policy: SchedulePolicy): nat {
    match policy.missedWindowBehavior
    case RescheduleForward => 0
    case CatchUp(maxReleases) => maxReleases
  }

  /** The slots whose time has passed, in list order. */
  function Overdue(slots: seq<Slot>, now: int): seq<Slot> {
    if slots == [] then [] else (if slots[0].selectedAt <= now then [slots[0]] else []) + Overdue(slots[1..], now)
  }

  /** What happens to the overdue slot at position `k`. */
  ghost function Handle(t: Tables, slot: Slot, k: nat, pass: Pass): (Tables, Result<Fate, ScheduleError>) {
    if slot.onRequest then (t, Ok(Retained))
    else if k < pass.allowance then (t, Ok(ReleasedNow))
    else
      var (withdrawn, r) := Invalidate(t, slot.unit);
      match r
      case Ok(None) => (withdrawn, Ok(Skipped))
      case Err(error) => (withdrawn, if error.IsConflict() then Ok(Retained) else Err(error))
      case Ok(Some(_)) =>
        var (scheduled, s) := ScheduleAt(withdrawn, slot.unit, slot.package, SeedAt(pass.seed, k), None, pass.now);
        (scheduled, if s.Ok? then Ok(Rescheduled) else Err(s.error))
  }

  /** The tables once the first `k` overdue slots have been handled. */
  ghost function TablesAt(t: Tables, overdue: seq<Slot>, pass: Pass, k: nat): Tables
    requires k <= |overdue|
  {
    if k == 0 then t else Handle(TablesAt(t, overdue, pass, k - 1), overdue[k - 1], k - 1, pass).0
  }

  ghost function FateAt(t: Tables, overdue: seq<Slot>, pass: Pass, k: nat): Result<Fate, ScheduleError>
    requires k < |overdue|
  {
    Handle(TablesAt(t, overdue, pass, k), overdue[k], k, pass).1
  }

  ghost predicate Handled(t: Tables, overdue: seq<Slot>, pass: Pass, k: nat)
    requires k <= |overdue|
  {
    forall j | 0 <= j < k :: FateAt(t, overdue, pass, j).Ok?
  }

  /** The units among the first `k` overdue ones that met this fate, in order. */
  ghost function Those(t: Tables, overdue: seq<Slot>, pass: Pass, fate: Fate, k: nat): seq<UnitId>
    requires k <= |overdue|
  {
    if k == 0 then []
    else
      Those(t, overdue, pass, fate, k - 1)
      + if FateAt(t, overdue, pass, k - 1) == Ok(fate) then [overdue[k - 1].unit] else []
  }

  ghost function OutcomeAt(t: Tables, overdue: seq<Slot>, pass: Pass, k: nat): MissedWindowOutcome
    requires k <= |overdue|
  {
    MissedWindowOutcome(Those(t, overdue, pass, ReleasedNow, k), Those(t, overdue, pass, Rescheduled, k),
                        Those(t, overdue, pass, Retained, k))
  }

  /** The units among these whose time nobody asked for by hand, in order. */
  function NotByHand(slots: seq<Slot>): seq<UnitId> {
    if slots == [] then []
    else
      var last := slots[|slots| - 1];
      NotByHand(slots[..|slots| - 1]) + if last.onRequest then [] else [last.unit]
  }

  /** What a pass releases: the first overdue units, as many as its allowance, that nobody asked for by hand. */
  lemma {:induction false} ReleasesTheFirst(t: Tables, overdue: seq<Slot>, pass: Pass, k: nat)
    requires k <= |overdue|
    ensures Those(t, overdue, pass, ReleasedNow, k) == NotByHand(overdue[..if k <= pass.allowance then k else pass.allowance])
    decreases k
  {
    hide Handle;
    if k > 0 {
      ReleasesTheFirst(t, overdue, pass, k - 1);
      ReleasedExactly(TablesAt(t, overdue, pass, k - 1), overdue[k - 1], k - 1, pass);
      if k <= pass.allowance {
        assert overdue[..k][..k - 1] == overdue[..k - 1];
      }
    }
  }

  /**
   * Under the policy's own words: rescheduling forward releases nothing, and catching up releases exactly the
   * units among the first so many overdue slots whose times nobody asked for by hand.
   */
  ghost predicate ReleasedAsAsked(behavior: MissedWindowBehavior, overdue: seq<Slot>, releasedNow: seq<UnitId>) {
    match behavior
    case RescheduleForward => releasedNow == []
    case CatchUp(most) => releasedNow == NotByHand(if most <= |overdue| then overdue[..most] else overdue)
  }

  lemma AllowanceIsAsked(t: Tables, overdue: seq<Slot>, policy: SchedulePolicy, seed: bv64, now: int)
    ensures ReleasedAsAsked(policy.missedWindowBehavior, overdue,
                            OutcomeAt(t, overdue, NewPass(Allowance(policy), seed, now), |overdue|).releasedNow)
  {
    ReleasesTheFirst(t, overdue, NewPass(Allowance(policy), seed, now), |overdue|);
    assert overdue[..|overdue|] == overdue;
  }

  /** The draws of one pass start from the seed given and those that follow it, one for each overdue slot. */
  lemma {:induction false} SeedsCountUp(seed: bv64, earlier: nat, later: nat)
    ensures SeedAt(seed, 0) == seed && SeedAt(seed, earlier + 1) == SeedAt(seed, earlier) + 1
    ensures SeedAt(seed, earlier + later) == SeedAt(SeedAt(seed, earlier), later)
    decreases later
  {
    if later > 0 {
      SeedsCountUp(seed, earlier, later - 1);
    }
  }

  method HandleSlot(store: QueueStore, slot: Slot, k: nat, pass: Pass) returns (fate: Result<Fate, ScheduleError>)
    modifies store
    ensures (store.Value(), fate) == Handle(old(store.Value()), slot, k, pass)
  {
    hide Invalidate, ScheduleAt, SeedAt;
    if slot.onRequest {
      return Ok(Retained);
    }
    if k < pass.allowance {
      return Ok(ReleasedNow);
    }
    var withdrawn := store.InvalidateScheduleSlot(slot.unit);
    if withdrawn.Err? {
      return if withdrawn.error.IsConflict() then Ok(Retained) else Err(withdrawn.error);
    }
    if withdrawn.value.None? {
      return Ok(Skipped);
    }
    var scheduled := store.SelectTime(slot.unit, slot.package, SeedAt(pass.seed, k), None, pass.now);
    return if scheduled.Ok? then Ok(Rescheduled) else Err(scheduled.error);
  }

  lemma NothingToRelease()
    ensures forall behavior :: ReleasedAsAsked(behavior, [], [])
  {
  }

  /** Applies the repository's missed-window policy to every slot whose time has passed. */
  method ReconcileMissedWindows(store: QueueStore, seed: bv64, now: int)
    returns (r: Result<MissedWindowOutcome, ScheduleError>)
    modifies store
    ensures var t, overdue := old(store.Value()), Overdue(old(store.Value()).slots, now);
            if overdue == [] then store.Value() == t && r == Ok(MissedWindowOutcome([], [], []))
            else if t.policy.None? then store.Value() == t && r == Err(MissingPolicy)
            else
              var pass := NewPass(Allowance(t.policy.value), seed, now);
              if r.Ok? then
                && Handled(t, overdue, pass, |overdue|)
                && store.Value() == TablesAt(t, overdue, pass, |overdue|)
                && r.value == OutcomeAt(t, overdue, pass, |overdue|)
              else
                exists k | 0 <= k < |overdue| ::
                  && Handled(t, overdue, pass, k) && FateAt(t, overdue, pass, k) == Err(r.error)
                  && store.Value() == TablesAt(t, overdue, pass, k + 1)
    ensures r.Ok? && store.policy.Some? ==>
      ReleasedAsAsked(store.policy.value.missedWindowBehavior, Overdue(old(store.Value()).slots, now), r.value.releasedNow)
  {
    hide Handle, Overdue, ReleasedAsAsked;
    NothingToRelease();
    ghost var t := store.Value();
    var overdue := Overdue(store.slots, now);
    if overdue == [] {
      return Ok(MissedWindowOutcome([], [], []));
    }
    if store.policy.None? {
      return Err(MissingPolicy);
    }
    var pass := NewPass(Allowance(store.policy.value), seed, now);
    var outcome := MissedWindowOutcome([], [], []);
    for k := 0 to |overdue|
      invariant Handled(t, overdue, pass, k)
      invariant store.Value() == TablesAt(t, overdue, pass, k)
      invariant outcome == OutcomeAt(t, overdue, pass, k)
    {
      var unit := overdue[k].unit;
      var fate := HandleSlot(store, overdue[k], k, pass);
      if fate.Err? {
        return Err(fate.error);
      }
      match fate.value
      case ReleasedNow => outcome := outcome.(releasedNow := outcome.releasedNow + [unit]);
      case Rescheduled => outcome := outcome.(rescheduled := outcome.rescheduled + [unit]);
      case Retained => outcome := outcome.(retained := outcome.retained + [unit]);
      case Skipped =>
    }
    AllowanceIsAsked(t, overdue, store.policy.value, seed, now);
    return Ok(outcome);
  }

  // --------------------------------------------------- who ends up where

  lemma {:induction false} OverdueHolds(slots: seq<Slot>, now: int)
    ensures forall slot :: slot in Overdue(slots, now) <==> slot in slots && slot.selectedAt <= now
  {
    if slots != [] {
      OverdueHolds(slots[1..], now);
      assert slots == [slots[0]] + slots[1..];
    }
  }

  lemma {:induction false} OverdueKeepsOrder(slots: seq<Slot>, now: int)
    requires InListOrder(slots)
    ensures InListOrder(Overdue(slots, now))
  {
    hide InListOrder;
    if slots == [] {
      assert Overdue(slots, now) == slots;
    } else {
      var rest := Overdue(slots[1..], now);
      RestIsInListOrder(slots);
      OverdueKeepsOrder(slots[1..], now);
      OverdueHolds(slots[1..], now);
      ConsIsInListOrder(slots[0], rest);
      assert [] + rest == rest;
    }
  }

  lemma {:induction false} ThoseHold(t: Tables, overdue: seq<Slot>, pass: Pass, fate: Fate, k: nat, unit: UnitId)
    requires k <= |overdue|
    ensures unit in Those(t, overdue, pass, fate, k) <==>
      exists j | 0 <= j < k :: overdue[j].unit == unit && FateAt(t, overdue, pass, j) == Ok(fate)
    decreases k
  {
    hide FateAt;
    if k > 0 {
      ThoseHold(t, overdue, pass, fate, k - 1, unit);
    }
  }

  lemma {:induction false} FatesAddUp(t: Tables, overdue: seq<Slot>, pass: Pass, k: nat)
    requires k <= |overdue| && Handled(t, overdue, pass, k)
    ensures |Those(t, overdue, pass, ReleasedNow, k)| + |Those(t, overdue, pass, Rescheduled, k)|
            + |Those(t, overdue, pass, Retained, k)| + |Those(t, overdue, pass, Skipped, k)| == k
    decreases k
  {
    hide FateAt;
    if k > 0 {
      FatesAddUp(t, overdue, pass, k - 1);
      var fate := FateAt(t, overdue, pass, k - 1).value;
      assert fate.ReleasedNow? || fate.Rescheduled? || fate.Retained? || fate.Skipped?;
    }
  }

  /** Released at once are the oldest, up to the allowance, except those somebody asked for by hand. */
  lemma ReleasedExactly(t: Tables, slot: Slot, k: nat, pass: Pass)
    ensures Handle(t, slot, k, pass).1 == Ok(ReleasedNow) <==> !slot.onRequest && k < pass.allowance
  {
    hide ScheduleAt, SeedAt, Invalidate;
  }

  lemma {:induction false} ReleasesWithinAllowance(t: Tables, overdue: seq<Slot>, pass: Pass, k: nat)
    requires k <= |overdue|
    ensures |Those(t, overdue, pass, ReleasedNow, k)| <= pass.allowance
    ensures |Those(t, overdue, pass, ReleasedNow, k)| <= k
    decreases k
  {
    hide Handle;
    if k > 0 {
      ReleasesWithinAllowance(t, overdue, pass, k - 1);
      ReleasedExactly(TablesAt(t, overdue, pass, k - 1), overdue[k - 1], k - 1, pass);
    }
  }

  /** A time is retained because someone asked for it, or because a task has moved on: attempts do not matter. */
  lemma RetainedExactly(t: Tables, slot: Slot, k: nat, pass: Pass)
    requires Find(t.slots, slot.unit).Some? && slot.unit in t.units
    requires forall task | task in Members(t.groups, slot.unit) :: task in t.tasks
    ensures Handle(t, slot, k, pass).1 == Ok(Retained) <==>
      slot.onRequest || (k >= pass.allowance && exists task | task in Members(t.groups, slot.unit) ::
        !t.tasks[task].Scheduled? && !t.tasks[task].IsTerminal() && !t.tasks[task].Blocked?)
  {
    hide ScheduleAt, SeedAt;
    var busy := Busy(t, Members(t.groups, slot.unit));
    if busy != {} {
      var task :| task in busy;
      assert task in Members(t.groups, slot.unit);
    }
    if task :| task in Members(t.groups, slot.unit)
               && !t.tasks[task].Scheduled? && !t.tasks[task].IsTerminal() && !t.tasks[task].Blocked? {
      assert task in busy;
    }
  }

  // ------------------------------------------------ what rescheduling keeps

  lemma {:induction false} FindUnique(slots: seq<Slot>, slot: Slot)
    requires InListOrder(slots) && slot in slots
    ensures Find(slots, slot.unit) == Some(slot)
  {
    if slots[0] != slot {
      var i :| 0 <= i < |slots| && slots[i] == slot;
      assert slots[0].unit != slots[i].unit;
      assert slots[1..][i - 1] == slot;
      FindUnique(slots[1..], slot);
    }
  }

  /** Rescheduling one unit replaces its slot by one no earlier than the clock and clear of all others. */
  ghost predicate Replaces(t: Tables, v: Tables, slot: Slot, successor: Slot, now: int, gap: int) {
    && successor.unit == slot.unit && now <= successor.selectedAt
    && (forall s :: s in v.slots <==> s == successor || (s in t.slots && s.unit != slot.unit))
    && (forall s | s in t.slots && s.unit != slot.unit :: Abs(successor.selectedAt - s.selectedAt) >= gap)
  }

  lemma DrawnIsClear(policy: SchedulePolicy, now: int, existing: seq<int>, at: int)
    requires WellChosen(policy, None, now, existing, at)
    ensures now <= at && Clear(at, existing, policy.SpacingMs())
  {
  }

  lemma InsertReplaces(t: Tables, withdrawn: Tables, v: Tables, slot: Slot, successor: Slot, policy: SchedulePolicy, now: int)
    requires InListOrder(withdrawn.slots) && successor.unit == slot.unit
    requires forall s :: s in withdrawn.slots <==> s in t.slots && s.unit != slot.unit
    requires v.slots == InsertRow(successor, withdrawn.slots)
    requires WellChosen(policy, None, now, SelectedTimes(withdrawn.slots), successor.selectedAt)
    ensures Replaces(t, v, slot, successor, now, policy.SpacingMs())
  {
    hide WellChosen, InListOrder, InsertRow;
    DrawnIsClear(policy, now, SelectedTimes(withdrawn.slots), successor.selectedAt);
    InsertRowHolds(successor, withdrawn.slots);
    forall s ensures s in v.slots <==> s == successor || (s in t.slots && s.unit != slot.unit) {
      assert s in v.slots <==> s in multiset(v.slots);
    }
    forall s | s in t.slots && s.unit != slot.unit
      ensures Abs(successor.selectedAt - s.selectedAt) >= policy.SpacingMs()
    {
      TimeOf(withdrawn.slots, s);
    }
  }

  lemma WithdrawnHolds(t: Tables, unit: UnitId, policy: SchedulePolicy)
    requires InListOrder(t.slots) && Governed(t, policy)
    requires Invalidate(t, unit).1.Ok? && Invalidate(t, unit).1.value.Some?
    ensures var w := Invalidate(t, unit).0;
            && w.slots == RemoveRow(t.slots, unit) && Governed(w, policy) && InListOrder(w.slots)
            && Find(w.slots, unit).None?
            && forall s :: s in w.slots <==> s in t.slots && s.unit != unit
  {
    hide Busy, InListOrder;
    RemoveRowHolds(t.slots, unit);
    FindHolds(RemoveRow(t.slots, unit), unit);
    assert Effective(Invalidate(t, unit).0) == Effective(t);
  }

  lemma RescheduleReplaces(t: Tables, slot: Slot, k: nat, pass: Pass, policy: SchedulePolicy) returns (successor: Slot)
    requires Governed(t, policy) && InListOrder(t.slots) && slot in t.slots
    requires Handle(t, slot, k, pass).1 == Ok(Rescheduled)
    ensures var v := Handle(t, slot, k, pass).0;
            Replaces(t, v, slot, successor, pass.now, policy.SpacingMs()) && Governed(v, policy) && InListOrder(v.slots)
    ensures var rest := RemoveRow(t.slots, slot.unit);
            && Handle(t, slot, k, pass).0.slots == InsertRow(successor, rest)
            && WellChosen(policy, None, pass.now, SelectedTimes(rest), successor.selectedAt)
  {
    hide ScheduleAt, SeedAt, Invalidate, WellChosen, InListOrder, Replaces;
    var withdrawn := Invalidate(t, slot.unit).0;
    var seed := SeedAt(pass.seed, k);
    WithdrawnHolds(t, slot.unit, policy);
    ScheduledHolds(withdrawn, slot.unit, slot.package, seed, None, pass.now, policy);
    var (v, r) := ScheduleAt(withdrawn, slot.unit, slot.package, seed, None, pass.now);
    successor := r.value;
    InsertRowLists(successor, withdrawn.slots);
    InsertReplaces(t, withdrawn, v, slot, successor, policy, pass.now);
  }

  lemma OtherFatesChangeNothing(t: Tables, slot: Slot, k: nat, pass: Pass)
    requires Handle(t, slot, k, pass).1.Ok? && Handle(t, slot, k, pass).1 != Ok(Rescheduled)
    ensures Handle(t, slot, k, pass).0 == t
  {
    hide ScheduleAt, SeedAt;
  }

  lemma LiveIsNotSkipped(t: Tables, slot: Slot, k: nat, pass: Pass)
    requires Find(t.slots, slot.unit).Some?
    ensures Handle(t, slot, k, pass).1 != Ok(Skipped)
  {
    hide ScheduleAt, SeedAt;
  }

  ghost predicate RescheduledBefore(t: Tables, overdue: seq<Slot>, pass: Pass, k: nat, unit: UnitId)
    requires k <= |overdue|
  {
    exists j | 0 <= j < k :: overdue[j].unit == unit && FateAt(t, overdue, pass, j) == Ok(Rescheduled)
  }

  /** The unit holds a time no earlier than the clock, at least the spacing from every other live slot. */
  ghost predicate Fresh(slots: seq<Slot>, unit: UnitId, now: int, gap: int) {
    exists s | s in slots :: s.unit == unit && now <= s.selectedAt
      && forall o | o in slots && o.unit != unit :: Abs(s.selectedAt - o.selectedAt) >= gap
  }

  /** What holds once the first `k` overdue slots have been handled. */
  ghost predicate PassSound(t: Tables, overdue: seq<Slot>, pass: Pass, policy: SchedulePolicy, k: nat)
    requires k <= |overdue|
  {
    var v := TablesAt(t, overdue, pass, k);
    && Governed(v, policy) && InListOrder(v.slots)
    && (forall s | s in t.slots && !RescheduledBefore(t, overdue, pass, k, s.unit) :: s in v.slots)
    && (forall unit | RescheduledBefore(t, overdue, pass, k, unit) :: Fresh(v.slots, unit, pass.now, policy.SpacingMs()))
  }

  lemma FreshAfterReplacing(t: Tables, v: Tables, slot: Slot, successor: Slot, now: int, gap: int, unit: UnitId)
    requires Replaces(t, v, slot, successor, now, gap)
    requires unit == slot.unit || Fresh(t.slots, unit, now, gap)
    ensures Fresh(v.slots, unit, now, gap)
  {
    if unit == slot.unit {
      assert successor in v.slots;
      forall o | o in v.slots && o.unit != unit ensures Abs(successor.selectedAt - o.selectedAt) >= gap {
      }
    } else {
      var s :| s in t.slots && s.unit == unit && now <= s.selectedAt
        && forall o | o in t.slots && o.unit != unit :: Abs(s.selectedAt - o.selectedAt) >= gap;
      assert s in v.slots;
      forall o | o in v.slots && o.unit != unit ensures Abs(s.selectedAt - o.selectedAt) >= gap {
        if o == successor {
          assert Abs(successor.selectedAt - s.selectedAt) >= gap;
        }
      }
    }
  }

  lemma RescheduledGrows(t: Tables, overdue: seq<Slot>, pass: Pass, k: nat, unit: UnitId)
    requires k < |overdue|
    ensures RescheduledBefore(t, overdue, pass, k + 1, unit) <==>
      RescheduledBefore(t, overdue, pass, k, unit)
      || (overdue[k].unit == unit && FateAt(t, overdue, pass, k) == Ok(Rescheduled))
  {
    hide FateAt;
  }

  lemma NotYetRescheduled(t: Tables, overdue: seq<Slot>, pass: Pass, k: nat)
    requires k < |overdue| && InListOrder(overdue)
    ensures !RescheduledBefore(t, overdue, pass, k, overdue[k].unit)
  {
  }

  lemma PassStep(t: Tables, overdue: seq<Slot>, pass: Pass, policy: SchedulePolicy, k: nat)
    requires k < |overdue| && InListOrder(overdue) && PassSound(t, overdue, pass, policy, k)
    requires overdue[k] in t.slots && FateAt(t, overdue, pass, k).Ok?
    ensures PassSound(t, overdue, pass, policy, k + 1)
    ensures FateAt(t, overdue, pass, k) != Ok(Skipped)
  {
    hide Handle, Governed, InListOrder, Fresh, RescheduledBefore, Replaces;
    var v, slot := TablesAt(t, overdue, pass, k), overdue[k];
    NotYetRescheduled(t, overdue, pass, k);
    FindUnique(v.slots, slot);
    LiveIsNotSkipped(v, slot, k, pass);
    forall unit ensures RescheduledBefore(t, overdue, pass, k + 1, unit) <==>
      RescheduledBefore(t, overdue, pass, k, unit)
      || (overdue[k].unit == unit && FateAt(t, overdue, pass, k) == Ok(Rescheduled))
    {
      RescheduledGrows(t, overdue, pass, k, unit);
    }
    if FateAt(t, overdue, pass, k) == Ok(Rescheduled) {
      var successor := RescheduleReplaces(v, slot, k, pass, policy);
      var u := TablesAt(t, overdue, pass, k + 1);
      forall unit | RescheduledBefore(t, overdue, pass, k + 1, unit)
        ensures Fresh(u.slots, unit, pass.now, policy.SpacingMs())
      {
        FreshAfterReplacing(v, u, slot, successor, pass.now, policy.SpacingMs(), unit);
      }
      ReplacingKeepsOthers(v, u, slot, successor, pass.now, policy.SpacingMs());
    } else {
      OtherFatesChangeNothing(v, slot, k, pass);
    }
  }

  lemma ReplacingKeepsOthers(t: Tables, v: Tables, slot: Slot, successor: Slot, now: int, gap: int)
    requires Replaces(t, v, slot, successor, now, gap)
    ensures forall s | s in t.slots && s.unit != slot.unit :: s in v.slots
  {
  }

  lemma {:induction false} PassKeeps(t: Tables, overdue: seq<Slot>, pass: Pass, policy: SchedulePolicy, k: nat)
    requires k <= |overdue| && Governed(t, policy) && InListOrder(t.slots) && Handled(t, overdue, pass, k)
    requires overdue == Overdue(t.slots, pass.now)
    ensures PassSound(t, overdue, pass, policy, k)
    ensures Those(t, overdue, pass, Skipped, k) == []
    decreases k
  {
    hide Handle, Governed, PassSound, Overdue, InListOrder;
    if k == 0 {
      PassStarts(t, overdue, pass, policy);
    } else {
      PassKeeps(t, overdue, pass, policy, k - 1);
      OverdueKeepsOrder(t.slots, pass.now);
      OverdueHolds(t.slots, pass.now);
      assert overdue[k - 1] in overdue;
      PassStep(t, overdue, pass, policy, k - 1);
    }
  }

  lemma PassStarts(t: Tables, overdue: seq<Slot>, pass: Pass, policy: SchedulePolicy)
    requires Governed(t, policy) && InListOrder(t.slots)
    ensures PassSound(t, overdue, pass, policy, 0)
  {
    hide Governed, InListOrder;
  }

  /** A list names each of its units once, in the order they are overdue. */
  ghost predicate PartOf(units: seq<UnitId>, overdue: seq<Slot>, at: seq<nat>) {
    && |at| == |units|
    && (forall i | 0 <= i < |at| :: at[i] < |overdue| && overdue[at[i]].unit == units[i])
    && forall i, j | 0 <= i < j < |at| :: at[i] < at[j]
  }

  lemma {:induction false} ThoseAreInOrder(t: Tables, overdue: seq<Slot>, pass: Pass, fate: Fate, k: nat) returns (at: seq<nat>)
    requires k <= |overdue|
    ensures PartOf(Those(t, overdue, pass, fate, k), overdue, at)
    ensures forall i | 0 <= i < |at| :: at[i] < k
    decreases k
  {
    hide FateAt;
    at := [];
    if k > 0 {
      at := ThoseAreInOrder(t, overdue, pass, fate, k - 1);
      if FateAt(t, overdue, pass, k - 1) == Ok(fate) {
        at := at + [k - 1];
      }
    }
  }

  /** No unit meets two fates. */
  lemma FatesAreDisjoint(t: Tables, overdue: seq<Slot>, pass: Pass, k: nat, one: Fate, other: Fate, unit: UnitId)
    requires k <= |overdue| && InListOrder(overdue) && one != other
    requires unit in Those(t, overdue, pass, one, k)
    ensures unit !in Those(t, overdue, pass, other, k)
  {
    hide FateAt;
    ThoseHold(t, overdue, pass, one, k, unit);
    ThoseHold(t, overdue, pass, other, k, unit);
  }

  /**
   * When reconciliation succeeds, every overdue unit is in one of the three lists; at most
   * the allowance is released; every unit outside `rescheduled` keeps the very slot it had; and every
   * rescheduled unit has a time no earlier than the clock, spaced from every other live slot.
   */
  lemma ReconciliationIsSound(t: Tables, pass: Pass, policy: SchedulePolicy)
    requires Governed(t, policy) && InListOrder(t.slots)
    requires Handled(t, Overdue(t.slots, pass.now), pass, |Overdue(t.slots, pass.now)|)
    ensures var overdue := Overdue(t.slots, pass.now);
            var outcome, v := OutcomeAt(t, overdue, pass, |overdue|), TablesAt(t, overdue, pass, |overdue|);
            && |outcome.releasedNow| + |outcome.rescheduled| + |outcome.retained| == |overdue|
            && (forall slot | slot in overdue ::
                  slot.unit in outcome.releasedNow || slot.unit in outcome.rescheduled || slot.unit in outcome.retained)
            && |outcome.releasedNow| <= pass.allowance
            && (forall slot | slot in t.slots && slot.unit !in outcome.rescheduled :: slot in v.slots)
            && (forall unit | unit in outcome.rescheduled :: Fresh(v.slots, unit, pass.now, policy.SpacingMs()))
            && InListOrder(v.slots)
  {
    hide Governed, InListOrder, Fresh, Handle, Overdue, FateAt;
    var overdue := Overdue(t.slots, pass.now);
    var n := |overdue|;
    PassKeeps(t, overdue, pass, policy, n);
    FatesAddUp(t, overdue, pass, n);
    ReleasesWithinAllowance(t, overdue, pass, n);
    forall unit ensures unit in Those(t, overdue, pass, Rescheduled, n) <==> RescheduledBefore(t, overdue, pass, n, unit) {
      ThoseHold(t, overdue, pass, Rescheduled, n, unit);
    }
    forall slot | slot in overdue
      ensures slot.unit in Those(t, overdue, pass, ReleasedNow, n) || slot.unit in Those(t, overdue, pass, Rescheduled, n)
              || slot.unit in Those(t, overdue, pass, Retained, n)
    {
      var j :| 0 <= j < n && overdue[j] == slot;
      var fate := FateAt(t, overdue, pass, j).value;
      ThoseHold(t, overdue, pass, fate, n, slot.unit);
      assert fate != Skipped;
    }
  }

  // ------------------------------------------------------- the daily maximum

  /** The day the unit's time falls on holds no more than the daily maximum, every live slot counted. */
  ghost predicate DayHasRoom(policy: SchedulePolicy, slots: seq<Slot>, unit: UnitId) {
    forall s, date: int | s in slots && s.unit == unit && policy.timezone.DateOf(s.selectedAt) == Some(date) ::
      CountOn(policy.timezone, SelectedTimes(slots), date) <= policy.dailyReleases.maximum
  }

  lemma {:induction false} RemovingLowersCounts(zone: Zone, slots: seq<Slot>, unit: UnitId, date: int)
    ensures CountOn(zone, SelectedTimes(RemoveRow(slots, unit)), date) <= CountOn(zone, SelectedTimes(slots), date)
  {
    if slots != [] {
      assert SelectedTimes(slots)[1..] == SelectedTimes(slots[1..]);
      if slots[0].unit != unit {
        RemovingLowersCounts(zone, slots[1..], unit, date);
        assert SelectedTimes(RemoveRow(slots, unit))[1..] == SelectedTimes(RemoveRow(slots[1..], unit));
      }
    }
  }

  lemma InsertingCountsOne(zone: Zone, slot: Slot, slots: seq<Slot>, date: int)
    ensures CountOn(zone, SelectedTimes(InsertRow(slot, slots)), date)
         == CountOn(zone, SelectedTimes(slots), date) + CountOn(zone, [slot.selectedAt], date)
  {
    TimesOfInserted(slot, slots);
    CountOnPermuted(zone, SelectedTimes(InsertRow(slot, slots)), SelectedTimes(slots) + [slot.selectedAt], date);
    CountOnAppend(zone, SelectedTimes(slots), [slot.selectedAt], date);
  }

  lemma RoomAfterReplacing(policy: SchedulePolicy, now: int, slots: seq<Slot>, slot: Slot, successor: Slot, unit: UnitId)
    requires InListOrder(slots) && successor.unit == slot.unit
    requires WellChosen(policy, None, now, SelectedTimes(RemoveRow(slots, slot.unit)), successor.selectedAt)
    requires unit == slot.unit || DayHasRoom(policy, slots, unit)
    ensures DayHasRoom(policy, InsertRow(successor, RemoveRow(slots, slot.unit)), unit)
  {
    hide InListOrder;
    var zone, rest := policy.timezone, RemoveRow(slots, slot.unit);
    var replaced := InsertRow(successor, rest);
    RemoveRowHolds(slots, slot.unit);
    InsertRowHolds(successor, rest);
    forall s, date: int | s in replaced && s.unit == unit && zone.DateOf(s.selectedAt) == Some(date)
      ensures CountOn(zone, SelectedTimes(replaced), date) <= policy.dailyReleases.maximum
    {
      InsertingCountsOne(zone, successor, rest, date);
      RemovingLowersCounts(zone, slots, slot.unit, date);
      assert s in multiset(replaced);
      if CountOn(zone, [successor.selectedAt], date) == 0 {
        assert s == successor || s in rest;
        assert s in slots;
      }
    }
  }

  lemma OneMoreHasRoom(v: Tables, slot: Slot, k: nat, pass: Pass, policy: SchedulePolicy, unit: UnitId)
    requires Governed(v, policy) && InListOrder(v.slots) && slot in v.slots && Handle(v, slot, k, pass).1.Ok?
    requires (unit == slot.unit && Handle(v, slot, k, pass).1 == Ok(Rescheduled)) || DayHasRoom(policy, v.slots, unit)
    ensures DayHasRoom(policy, Handle(v, slot, k, pass).0.slots, unit)
  {
    hide Handle, Governed, InListOrder, DayHasRoom, WellChosen;
    if Handle(v, slot, k, pass).1 == Ok(Rescheduled) {
      var successor := RescheduleReplaces(v, slot, k, pass, policy);
      RoomAfterReplacing(policy, pass.now, v.slots, slot, successor, unit);
    } else {
      OtherFatesChangeNothing(v, slot, k, pass);
    }
  }

  lemma HandledSoFar(t: Tables, overdue: seq<Slot>, pass: Pass, k: nat)
    requires 0 < k <= |overdue| && Handled(t, overdue, pass, k)
    ensures Handled(t, overdue, pass, k - 1)
    ensures Handle(TablesAt(t, overdue, pass, k - 1), overdue[k - 1], k - 1, pass)
            == (TablesAt(t, overdue, pass, k), FateAt(t, overdue, pass, k - 1))
    ensures FateAt(t, overdue, pass, k - 1).Ok?
  {
    hide Handle;
  }

  lemma {:induction false} PassKeepsMaximum(
    t: Tables, overdue: seq<Slot>, pass: Pass, policy: SchedulePolicy, k: nat, unit: UnitId)
    requires k <= |overdue| && Governed(t, policy) && InListOrder(t.slots) && Handled(t, overdue, pass, k)
    requires overdue == Overdue(t.slots, pass.now) && RescheduledBefore(t, overdue, pass, k, unit)
    ensures DayHasRoom(policy, TablesAt(t, overdue, pass, k).slots, unit)
    decreases k
  {
    hide Handle, Governed, Overdue, InListOrder, RescheduledBefore, DayHasRoom, FateAt, Handled, TablesAt;
    if k == 0 {
      NoneRescheduledYet(t, overdue, pass, unit);
    } else {
      HandledSoFar(t, overdue, pass, k);
      RescheduledGrows(t, overdue, pass, k - 1, unit);
      if RescheduledBefore(t, overdue, pass, k - 1, unit) {
        PassKeepsMaximum(t, overdue, pass, policy, k - 1, unit);
      }
      LiveWhenItsTurnComes(t, overdue, pass, policy, k - 1);
      OneMoreHasRoom(TablesAt(t, overdue, pass, k - 1), overdue[k - 1], k - 1, pass, policy, unit);
    }
  }

  lemma NoneRescheduledYet(t: Tables, overdue: seq<Slot>, pass: Pass, unit: UnitId)
    ensures !RescheduledBefore(t, overdue, pass, 0, unit)
  {
  }

  lemma LiveWhenItsTurnComes(t: Tables, overdue: seq<Slot>, pass: Pass, policy: SchedulePolicy, k: nat)
    requires k < |overdue| && Governed(t, policy) && InListOrder(t.slots) && Handled(t, overdue, pass, k)
    requires overdue == Overdue(t.slots, pass.now)
    ensures var v := TablesAt(t, overdue, pass, k); Governed(v, policy) && InListOrder(v.slots) && overdue[k] in v.slots
  {
    hide Handle, Governed, Overdue, InListOrder, Fresh, RescheduledBefore;
    PassKeeps(t, overdue, pass, policy, k);
    OverdueKeepsOrder(t.slots, pass.now);
    OverdueHolds(t.slots, pass.now);
    assert overdue[k] in overdue;
    NotYetRescheduled(t, overdue, pass, k);
  }

  /** Every day a new time falls on stays within the daily maximum, counted once reconciliation is over. */
  lemma ReconciliationKeepsMaximum(t: Tables, pass: Pass, policy: SchedulePolicy, unit: UnitId)
    requires Governed(t, policy) && InListOrder(t.slots)
    requires Handled(t, Overdue(t.slots, pass.now), pass, |Overdue(t.slots, pass.now)|)
    requires unit in OutcomeAt(t, Overdue(t.slots, pass.now), pass, |Overdue(t.slots, pass.now)|).rescheduled
    ensures var overdue := Overdue(t.slots, pass.now);
            DayHasRoom(policy, TablesAt(t, overdue, pass, |overdue|).slots, unit)
  {
    hide Governed, InListOrder, DayHasRoom, Overdue, FateAt;
    var overdue := Overdue(t.slots, pass.now);
    ThoseHold(t, overdue, pass, Rescheduled, |overdue|, unit);
    PassKeepsMaximum(t, overdue, pass, policy, |overdue|, unit);
  }
}
