/** When reconciliation leaves an overdue unit without a time, and who keeps theirs, at concrete queues. */
module LostTimes {
  import opened Wrappers
  import opened TaskGraphs
  import opened TaskLifecycle
  import opened SchedulePolicies
  import opened SlotGenerators
  import opened SelectionSoundness
  import opened SelectionCompleteness
  import opened ScheduleStores
  import opened ScheduleFacts
  import opened MissedWindows

  /** Every task of the unit can be returned to the queue, or needs not be. */
  predicate Withdrawable(t: Tables, unit: UnitId) {
    && unit in t.units
    && forall task | task in Members(t.groups, unit) ::
         task in t.tasks && (t.tasks[task].Scheduled? || t.tasks[task].IsTerminal() || t.tasks[task].Blocked?)
  }

  lemma WithdrawnExactly(t: Tables, unit: UnitId)
    requires Find(t.slots, unit).Some?
    ensures Invalidate(t, unit).1.Ok? <==> Withdrawable(t, unit)
    ensures Invalidate(t, unit).1.Ok? ==> Invalidate(t, unit).1.value.Some?
  {
    var members := Members(t.groups, unit);
    if Busy(t, members) == {} {
      forall task | task in members
        ensures task in t.tasks && (t.tasks[task].Scheduled? || t.tasks[task].IsTerminal() || t.tasks[task].Blocked?)
      {
        assert task !in Busy(t, members);
      }
    } else {
      var task :| task in Busy(t, members);
      assert task in members;
    }
  }

  lemma DrawnNotTooEarly(policy: SchedulePolicy, seed: bv64, now: int, existing: seq<int>)
    requires policy.Valid() && SchedulePolicies.Coherent(policy.timezone) && Draw(policy, seed, now, existing).Selected?
    ensures var slots := Draw(policy, seed, now, existing).slots; |slots| == 1 && 0 <= now <= slots[0].selectedAt
  {
    DrawIsWellChosen(policy, seed, now, existing);
    hide SelectDays, Seed, WithinDailyMaximum;
  }

  /** A unit without a time receives one exactly when a draw finds one and nothing its record needs is missing. */
  lemma TimeFoundExactly(t: Tables, unit: UnitId, package: Package, seed: bv64, now: int, policy: SchedulePolicy)
    requires Governed(t, policy) && Find(t.slots, unit).None? && unit in t.units
    ensures var members := Members(t.groups, unit);
            ScheduleAt(t, unit, package, seed, None, now).1.Ok? <==>
              && Draw(policy, seed, now, SelectedTimes(t.slots)).Selected?
              && package in t.packages && t.packages[package] == members
              && (forall task | task in members ::
                    task in t.tasks && t.tasks[task].Queued? && WaitsFor(t, task) <= members)
              && (forall k | 0 <= k < |t.slots| :: t.slots[k].package != package)
    ensures var (v, r) := ScheduleAt(t, unit, package, seed, None, now); r.Ok? <==> Find(v.slots, unit).Some?
  {
    hide Draw, PersistRefusal, SchedulePolicies.Coherent;
    var drawn := Draw(policy, seed, now, SelectedTimes(t.slots));
    ChosenIsWellChosen(policy, seed, None, now, SelectedTimes(t.slots));
    if drawn.Selected? {
      DrawnNotTooEarly(policy, seed, now, SelectedTimes(t.slots));
      var slot := Slot(unit, package, now, drawn.slots[0].selectedAt, false);
      RecordedExactly(t, slot);
      RemoveUndoesInsert(slot, t.slots);
    }
  }

  /**
   * No new time can be recorded for a unit whose own was withdrawn: nothing is left to draw, the package is
   * not the unit's, a task had ended or was blocked, one waits for work outside the unit, or another unit
   * already releases the package.
   */
  predicate Irreplaceable(t: Tables, slot: Slot, seed: bv64, now: int, policy: SchedulePolicy) {
    var others, members := RemoveRow(t.slots, slot.unit), Members(t.groups, slot.unit);
    || !Draw(policy, seed, now, SelectedTimes(others)).Selected?
    || slot.package !in t.packages || t.packages[slot.package] != members
    || (exists task | task in members :: task !in t.tasks || !t.tasks[task].Scheduled? || !(WaitsFor(t, task) <= members))
    || exists k | 0 <= k < |others| :: others[k].package == slot.package
  }

  lemma WithdrawnIsQueued(t: Tables, unit: UnitId)
    requires Find(t.slots, unit).Some? && Withdrawable(t, unit)
    ensures var w, members := Invalidate(t, unit).0, Members(t.groups, unit);
            && w == t.(slots := RemoveRow(t.slots, unit), tasks := w.tasks)
            && ((forall task | task in members :: task in w.tasks && w.tasks[task].Queued? && WaitsFor(w, task) <= members)
                <==> forall task | task in members ::
                       task in t.tasks && t.tasks[task].Scheduled? && WaitsFor(t, task) <= members)
  {
    WithdrawnExactly(t, unit);
    var w, members := Invalidate(t, unit).0, Members(t.groups, unit);
    forall task | task in members
      ensures w.tasks[task].Queued? <==> t.tasks[task].Scheduled?
    {
    }
  }

  /**
   * An overdue unit loses its time exactly when the time can be withdrawn and none can be recorded in its
   * place. Reconciliation then stops with an error.
   */
  lemma LosesTimeExactly(t: Tables, slot: Slot, k: nat, pass: Pass, policy: SchedulePolicy)
    requires Governed(t, policy) && InListOrder(t.slots) && slot in t.slots
    ensures Find(Handle(t, slot, k, pass).0.slots, slot.unit).None? <==>
      && !slot.onRequest && k >= pass.allowance && Withdrawable(t, slot.unit)
      && Irreplaceable(t, slot, SeedAt(pass.seed, k), pass.now, policy)
    ensures Find(Handle(t, slot, k, pass).0.slots, slot.unit).None?
            <==> Withdrawable(t, slot.unit) && Handle(t, slot, k, pass).1.Err?
  {
    hide SeedAt, InListOrder, Governed, Draw, Withdrawable, ScheduleAt, Invalidate;
    FindUnique(t.slots, slot);
    if !slot.onRequest && k >= pass.allowance {
      WithdrawnExactly(t, slot.unit);
      if Withdrawable(t, slot.unit) {
        WithdrawnHolds(t, slot.unit, policy);
        WithdrawnIsQueued(t, slot.unit);
        InUnits(t, slot.unit);
        TimeFoundExactly(Invalidate(t, slot.unit).0, slot.unit, slot.package, SeedAt(pass.seed, k), pass.now, policy);
      } else {
        RefusedWithdrawal(t, slot.unit);
      }
    }
  }

  lemma InUnits(t: Tables, unit: UnitId)
    requires Withdrawable(t, unit)
    ensures unit in t.units
  {
  }

  lemma RefusedWithdrawal(t: Tables, unit: UnitId)
    requires Invalidate(t, unit).1.Err?
    ensures Invalidate(t, unit).0 == t
  {
  }

  // ------------------------------------------------- one unit with one task

  const TASK := TaskId(0)
  const UNIT := UnitId(0)
  const PACKAGE := Package(0, 0)
  const SLOT := Slot(UNIT, PACKAGE, 0, 0, false)

  /** A unit of one task in this state, due at the epoch, in a queue under a policy that was accepted. */
  function QueueOf(status: TaskStatus): Tables {
    Tables(Some(TIGHT), None, map[PACKAGE := {TASK}], map[], {}, [SLOT], {UNIT}, map[TASK := UNIT], map[TASK := status])
  }

  lemma QueueIsGoverned(status: TaskStatus, now: nat)
    ensures Governed(QueueOf(status), TIGHT) && InListOrder(QueueOf(status).slots)
    ensures Overdue(QueueOf(status).slots, now) == [SLOT]
    ensures Members(QueueOf(status).groups, UNIT) == {TASK}
  {
    TightIsAccepted();
    assert TIGHT.Valid() by {
      PolicyAcceptedExactly(FixedOffset(0, 1000), EVERY_DAY, ONE_HOUR, Range(3, 3), 25, RescheduleForward);
    }
    FixedOffsetIsCoherent(0, 1000);
    AcceptedPolicyGoverns(QueueOf(status));
    assert QueueOf(status).slots[1..] == [];
  }

  /** With every day open and no other unit, a blocked task is enough: its unit's time is withdrawn and not replaced. */
  lemma BlockedLosesItsTime(pass: Pass)
    requires pass.now >= 0 && pass.allowance == 0
    ensures var t, overdue := QueueOf(Blocked), Overdue(QueueOf(Blocked).slots, pass.now);
            && overdue == [SLOT] && FateAt(t, overdue, pass, 0).Err?
            && Find(TablesAt(t, overdue, pass, 1).slots, UNIT).None?
  {
    hide Handle, Governed, InListOrder, Overdue, SeedAt, Draw;
    var t := QueueOf(Blocked);
    QueueIsGoverned(Blocked, pass.now);
    assert TASK in Members(t.groups, UNIT) && !t.tasks[TASK].Scheduled?;
    LosesTimeExactly(t, SLOT, 0, pass, TIGHT);
    assert Handle(t, SLOT, 0, pass) == Handle(TablesAt(t, [SLOT], pass, 0), [SLOT][0], 0, pass);
  }

  /** Whether the only task has moved on decides whether the unit keeps the time that passed. */
  lemma RetentionHappens(pass: Pass)
    requires pass.now >= 0 && pass.allowance == 0
    ensures Handle(QueueOf(Reconciling), SLOT, 0, pass).1 == Ok(Retained)
    ensures Handle(QueueOf(Scheduled), SLOT, 0, pass).1 != Ok(Retained)
    ensures Handle(QueueOf(Scheduled), SLOT.(onRequest := true), 0, pass).1 == Ok(Retained)
  {
    hide Handle;
    QueueIsGoverned(Reconciling, pass.now);
    QueueIsGoverned(Scheduled, pass.now);
    assert TASK in Members(QueueOf(Reconciling).groups, UNIT);
    RetainedExactly(QueueOf(Reconciling), SLOT, 0, pass);
    RetainedExactly(QueueOf(Scheduled), SLOT, 0, pass);
    RetainedExactly(QueueOf(Scheduled), SLOT.(onRequest := true), 0, pass);
  }
}
