/** What recording and withdrawing release times keeps true of a repository's queue. */
module ScheduleFacts {
  import opened Wrappers
  import opened SchedulePolicies
  import opened Candidates
  import opened PickLoop
  import opened SlotGenerators
  import opened SelectionSoundness
  import opened SelectionCompleteness
  import opened RequestedSlots
  import opened ScheduleStores

  /** Slots are listed by time, and no unit has two. */
  ghost predicate InListOrder(slots: seq<Slot>) {
    && (forall i, j | 0 <= i < j < |slots| ::
          slots[i].selectedAt < slots[j].selectedAt
          || (slots[i].selectedAt == slots[j].selectedAt && slots[i].unit.bits <= slots[j].unit.bits))
    && forall i, j | 0 <= i < j < |slots| :: slots[i].unit != slots[j].unit
  }

  lemma {:induction false} FindHolds(slots: seq<Slot>, unit: UnitId)
    ensures Find(slots, unit).Some? ==> Find(slots, unit).value in slots && Find(slots, unit).value.unit == unit
    ensures Find(slots, unit).None? <==> forall k | 0 <= k < |slots| :: slots[k].unit != unit
  {
    if slots != [] && slots[0].unit != unit {
      FindHolds(slots[1..], unit);
      assert forall k | 1 <= k < |slots| :: slots[k] == slots[1..][k - 1];
    }
  }

  lemma {:induction false} InsertRowHolds(slot: Slot, slots: seq<Slot>)
    ensures multiset(InsertRow(slot, slots)) == multiset(slots) + multiset{slot}
  {
    if slots != [] && !slot.Before(slots[0]) {
      InsertRowHolds(slot, slots[1..]);
      assert slots == [slots[0]] + slots[1..];
    }
  }

  lemma AmongInserted(slot: Slot, slots: seq<Slot>, k: nat)
    requires k < |InsertRow(slot, slots)|
    ensures InsertRow(slot, slots)[k] == slot || exists i | 0 <= i < |slots| :: slots[i] == InsertRow(slot, slots)[k]
  {
    InsertRowHolds(slot, slots);
    var x := InsertRow(slot, slots)[k];
    assert x in multiset(InsertRow(slot, slots));
    assert x == slot || x in slots;
  }

  lemma {:induction false} InsertRowLists(slot: Slot, slots: seq<Slot>)
    requires InListOrder(slots) && Find(slots, slot.unit).None?
    ensures InListOrder(InsertRow(slot, slots))
  {
    hide InListOrder;
    if slots != [] {
      var rest := slots[1..];
      assert slots == [slots[0]] + rest;
      RestIsInListOrder(slots);
      if slot.Before(slots[0]) {
        FindHolds(slots, slot.unit);
        forall s | s in slots ensures !s.Before(slot) && s.unit != slot.unit {
          var i :| 0 <= i < |slots| && slots[i] == s;
        }
        ConsIsInListOrder(slot, slots);
      } else {
        InsertRowLists(slot, rest);
        forall s | s in InsertRow(slot, rest) ensures !s.Before(slots[0]) && s.unit != slots[0].unit {
          var k :| 0 <= k < |InsertRow(slot, rest)| && InsertRow(slot, rest)[k] == s;
          AmongInserted(slot, rest, k);
        }
        ConsIsInListOrder(slots[0], InsertRow(slot, rest));
      }
    } else {
      OneIsInListOrder(slot);
    }
  }

  lemma OneIsInListOrder(slot: Slot)
    ensures InListOrder([slot]) && InsertRow(slot, []) == [slot]
  {
  }

  lemma RestIsInListOrder(slots: seq<Slot>)
    requires InListOrder(slots) && slots != []
    ensures InListOrder(slots[1..])
    ensures forall slot | slot in slots[1..] :: !slot.Before(slots[0]) && slot.unit != slots[0].unit
  {
    forall slot | slot in slots[1..] ensures !slot.Before(slots[0]) && slot.unit != slots[0].unit {
      var i :| 0 <= i < |slots[1..]| && slots[1..][i] == slot;
      assert slots[i + 1] == slot;
    }
  }

  lemma ConsIsInListOrder(first: Slot, rest: seq<Slot>)
    requires InListOrder(rest)
    requires forall slot | slot in rest :: !slot.Before(first) && slot.unit != first.unit
    ensures InListOrder([first] + rest)
  {
    var all := [first] + rest;
    forall k | 0 <= k < |rest| ensures !rest[k].Before(first) && rest[k].unit != first.unit {
      assert rest[k] in rest;
    }
  }

  lemma {:induction false} RemoveRowHolds(slots: seq<Slot>, unit: UnitId)
    requires InListOrder(slots)
    ensures InListOrder(RemoveRow(slots, unit))
    ensures forall slot :: slot in RemoveRow(slots, unit) <==> slot in slots && slot.unit != unit
  {
    hide InListOrder;
    if slots != [] {
      var rest := slots[1..];
      assert slots == [slots[0]] + rest;
      RestIsInListOrder(slots);
      RemoveRowHolds(rest, unit);
      if slots[0].unit != unit {
        ConsIsInListOrder(slots[0], RemoveRow(rest, unit));
      }
    } else {
      assert RemoveRow(slots, unit) == slots;
    }
  }

  lemma {:induction false} TimesOfInserted(slot: Slot, slots: seq<Slot>)
    ensures multiset(SelectedTimes(InsertRow(slot, slots))) == multiset(SelectedTimes(slots)) + multiset{slot.selectedAt}
  {
    if slots != [] && !slot.Before(slots[0]) {
      TimesOfInserted(slot, slots[1..]);
      assert SelectedTimes(slots) == [slots[0].selectedAt] + SelectedTimes(slots[1..]);
      assert SelectedTimes(InsertRow(slot, slots)) == [slots[0].selectedAt] + SelectedTimes(InsertRow(slot, slots[1..]));
    } else {
      assert SelectedTimes([slot] + slots) == [slot.selectedAt] + SelectedTimes(slots);
    }
  }

  lemma TimeOf(slots: seq<Slot>, slot: Slot)
    requires slot in slots
    ensures slot.selectedAt in SelectedTimes(slots)
  {
    var k :| 0 <= k < |slots| && slots[k] == slot;
    assert SelectedTimes(slots)[k] == slot.selectedAt;
  }

  /** The policy a time is chosen under is one the scheduler's guarantees hold for. */
  ghost predicate Governed(t: Tables, policy: SchedulePolicy) {
    Effective(t) == Ok(policy) && policy.Valid() && Coherent(policy.timezone)
  }

  /** An accepted policy, overridden or not, on a coherent zone governs the queue. */
  lemma AcceptedPolicyGoverns(t: Tables)
    requires t.policy.Some? && t.policy.value.Valid() && Coherent(t.policy.value.timezone)
    requires t.over.Some? && t.over.value.timezone.Some? ==> Coherent(t.over.value.timezone.value)
    ensures Effective(t).Ok? ==> Governed(t, Effective(t).value)
  {
    if t.over.Some? && WithOverride(t.policy.value, t.over.value).Ok? {
      var p, o := t.policy.value, t.over.value;
      PolicyAcceptedExactly(Or(o.timezone, p.timezone), Or(o.allowedDays, p.allowedDays), Or(o.windows, p.windows),
                            Or(o.dailyReleases, p.dailyReleases), Or(o.minimumSpacingMinutes, p.minimumSpacingMinutes),
                            Or(o.missedWindowBehavior, p.missedWindowBehavior));
    }
  }

  /** What a chosen time obeys, against the times it was chosen beside. */
  ghost predicate WellChosen(policy: SchedulePolicy, requested: Option<int>, now: int, existing: seq<int>, at: int) {
    && now <= at
    && (requested.Some? ==> at == requested.value)
    && (at !in existing ==> Clear(at, existing, policy.SpacingMs()) && WithinDailyMaximum(policy, existing, [at]))
    && (requested.None? ==> at !in existing)
  }

  lemma DrawIsWellChosen(policy: SchedulePolicy, seed: bv64, now: int, existing: seq<int>)
    requires policy.Valid() && Coherent(policy.timezone)
    ensures var drawn := Draw(policy, seed, now, existing);
            && !drawn.Aborted?
            && (drawn.Selected? ==> |drawn.slots| == 1 && WellChosen(policy, None, now, existing, drawn.slots[0].selectedAt))
  {
    OneSlotNeverAborts(XORSHIFT, policy, now, 1, existing, Seed(seed));
    SelectionIsSound(XORSHIFT, policy, now, 1, existing, Seed(seed));
    SelectionWithinDailyMaximum(XORSHIFT, policy, now, 1, existing, Seed(seed));
    hide SelectSlots, Seed, WithinDailyMaximum;
    var drawn := Draw(policy, seed, now, existing);
    if drawn.Selected? {
      var slot := drawn.slots[0];
      assert slot in drawn.slots;
      assert SlotAllowed(policy, now, existing, slot);
      assert Times(drawn.slots) == [slot.selectedAt];
      forall x | x in existing ensures x != slot.selectedAt {
        assert Abs(slot.selectedAt - x) >= policy.SpacingMs() > 0;
      }
    }
  }

  /** A chosen time is well chosen, and choosing never panics and never comes back empty. */
  lemma ChosenIsWellChosen(
    policy: SchedulePolicy, seed: bv64, requested: Option<int>, now: int, existing: seq<int>)
    requires policy.Valid() && Coherent(policy.timezone)
    ensures var r := ChooseTime(policy, seed, requested, now, existing);
            && (r.Ok? ==> WellChosen(policy, requested, now, existing, r.value.selectedAt))
            && (r.Err? ==> !r.error.Panicked? && !r.error.NoSelectableSlot?)
  {
    hide Draw, WithinDailyMaximum;
    match requested
    case None => DrawIsWellChosen(policy, seed, now, existing);
    case Some(instant) =>
      if ValidateRequestedSlot(policy, instant, now, existing).Ok? {
        AcceptedExactly(policy, instant, now, existing);
        if instant !in existing {
          OthersOfNew(existing, instant);
          AcceptedKeepsMaximum(policy, instant, now, existing);
        }
      }
  }

  /** Recording a time adds its slot and disturbs no other. */
  lemma ScheduledHolds(
    t: Tables, unit: UnitId, package: Package, seed: bv64, requested: Option<int>, now: int, policy: SchedulePolicy)
    requires Governed(t, policy) && Find(t.slots, unit).None?
    requires ScheduleAt(t, unit, package, seed, requested, now).1.Ok?
    ensures var (v, r) := ScheduleAt(t, unit, package, seed, requested, now);
            && r.value == Slot(unit, package, now, r.value.selectedAt, false)
            && v == t.(slots := InsertRow(r.value, t.slots), tasks := v.tasks)
            && WellChosen(policy, requested, now, SelectedTimes(t.slots), r.value.selectedAt)
  {
    hide ChooseTime, WellChosen, PersistRefusal;
    ChosenIsWellChosen(policy, seed, requested, now, SelectedTimes(t.slots));
  }

  /** Two different instants are at least the spacing apart. */
  ghost predicate DistinctApart(times: seq<int>, gap: int) {
    forall x, y | x in times && y in times && x != y :: Abs(x - y) >= gap
  }

  ghost predicate NoneTwice(times: seq<int>) {
    forall i, j | 0 <= i < j < |times| :: times[i] != times[j]
  }

  lemma SpreadExactly(times: seq<int>, gap: int)
    requires gap > 0
    ensures Spread(times, gap) <==> DistinctApart(times, gap) && NoneTwice(times)
  {
    if Spread(times, gap) {
      forall i, j | 0 <= i < j < |times| ensures times[i] != times[j] {
        assert Abs(times[i] - times[j]) >= gap;
      }
      forall x, y | x in times && y in times && x != y ensures Abs(x - y) >= gap {
        var i :| 0 <= i < |times| && times[i] == x;
        var j :| 0 <= j < |times| && times[j] == y;
        if i < j {
          assert Abs(times[i] - times[j]) >= gap;
        } else {
          assert Abs(times[j] - times[i]) >= gap;
        }
      }
    }
    if DistinctApart(times, gap) && NoneTwice(times) {
      forall i, j | 0 <= i < j < |times| ensures Abs(times[i] - times[j]) >= gap {
        assert times[i] in times && times[j] in times;
      }
    }
  }

  /** A well chosen time keeps distinct instants apart. */
  lemma ChosenKeepsApart(
    policy: SchedulePolicy, requested: Option<int>, now: int, existing: seq<int>, at: int, after: seq<int>)
    requires WellChosen(policy, requested, now, existing, at) && DistinctApart(existing, policy.SpacingMs())
    requires multiset(after) == multiset(existing) + multiset{at}
    ensures DistinctApart(after, policy.SpacingMs())
  {
    hide WithinDailyMaximum;
    forall x ensures x in after <==> x in existing || x == at {
      assert x in after <==> x in multiset(after);
    }
  }

  lemma {:induction false} RemoveUndoesInsert(slot: Slot, slots: seq<Slot>)
    requires Find(slots, slot.unit).None?
    ensures RemoveRow(InsertRow(slot, slots), slot.unit) == slots
    ensures Find(InsertRow(slot, slots), slot.unit) == Some(slot)
  {
    if slots == [] || slot.Before(slots[0]) {
      assert ([slot] + slots)[1..] == slots;
    } else {
      RemoveUndoesInsert(slot, slots[1..]);
      assert slots == [slots[0]] + slots[1..];
      assert InsertRow(slot, slots)[1..] == InsertRow(slot, slots[1..]);
    }
  }

  /** Withdrawing a time just recorded gives back the queue as it was, every task included. */
  lemma WithdrawalUndoesRecording(t: Tables, slot: Slot)
    requires Find(t.slots, slot.unit).None? && Persist(t, slot).1.Ok?
    ensures Invalidate(Persist(t, slot).0, slot.unit) == (t, Ok(Some(slot)))
  {
    var v, members := Persist(t, slot).0, Members(t.groups, slot.unit);
    RemoveUndoesInsert(slot, t.slots);
    EligibleExist(t, members);
    forall task | task in members ensures t.tasks[task].Queued? && v.tasks[task].Scheduled? {
      assert task !in Ineligible(t, members);
    }
    forall task | task in members ensures task !in Busy(v, members) {
    }
    assert Withdrawing(v.tasks, members) == t.tasks;
  }

  /** A slot is recorded exactly when nothing its unit needs is missing; every task of the unit is then scheduled. */
  lemma RecordedExactly(t: Tables, slot: Slot)
    ensures var v, members := Persist(t, slot).0, Members(t.groups, slot.unit);
            (v.slots != t.slots) <==>
              && 0 <= slot.eligibleAt <= slot.selectedAt && Find(t.slots, slot.unit).None?
              && slot.unit in t.units && slot.package in t.packages && t.packages[slot.package] == members
              && (forall task | task in members ::
                    task in t.tasks && t.tasks[task].Queued? && WaitsFor(t, task) <= members)
              && (forall k | 0 <= k < |t.slots| :: t.slots[k].package != slot.package)
    ensures var v, members := Persist(t, slot).0, Members(t.groups, slot.unit);
            v.slots != t.slots ==> forall task | task in members :: task in v.tasks && v.tasks[task].Scheduled?
  {
    var members := Members(t.groups, slot.unit);
    if Find(t.slots, slot.unit).None? {
      RemoveUndoesInsert(slot, t.slots);
    }
    if Ineligible(t, members) == {} {
      forall task | task in members
        ensures task in t.tasks && t.tasks[task].Queued? && WaitsFor(t, task) <= members
      {
        assert task !in Ineligible(t, members);
      }
    } else {
      var task :| task in Ineligible(t, members);
      assert task in members;
    }
  }

  /** A refused request changes nothing. */
  lemma RefusalChangesNothing(
    t: Tables, unit: UnitId, package: Package, seed: bv64, requested: Option<int>, now: int)
    requires ScheduleAt(t, unit, package, seed, requested, now).1.Err?
    ensures ScheduleAt(t, unit, package, seed, requested, now).0 == t
  {
    hide ChooseTime, Effective, PersistRefusal;
  }

  /** Asking again for a unit that has a time returns that time, whatever is asked for. */
  lemma AskingAgainReturnsTheSame(
    t: Tables, unit: UnitId, package: Package, seed: bv64, requested: Option<int>, now: int,
    package2: Package, seed2: bv64, requested2: Option<int>, now2: int, policy: SchedulePolicy)
    requires Governed(t, policy) && Find(t.slots, unit).None?
    requires ScheduleAt(t, unit, package, seed, requested, now).1.Ok?
    ensures var (v, r) := ScheduleAt(t, unit, package, seed, requested, now);
            ScheduleAt(v, unit, package2, seed2, requested2, now2) == (v, r)
  {
    hide WellChosen;
    ScheduledHolds(t, unit, package, seed, requested, now, policy);
    hide Persist, ChooseTime, Effective;
    RemoveUndoesInsert(ScheduleAt(t, unit, package, seed, requested, now).1.value, t.slots);
  }
}
