/** Grouping and scheduling several captured packages as one plan that takes effect whole or not at all. */
module BatchScheduling {
  import opened Wrappers
  import opened TaskGraphs
  import opened SchedulePolicies
  import opened Candidates
  import opened PickLoop
  import opened SlotGenerators
  import opened SelectionSoundness
  import opened RequestedSlots
  import opened ScheduleStores
  import opened ScheduleFacts

  /** `newUnit` is the identifier drawn for the unit, used if the package is not grouped yet. */
  datatype Batch = Batch(package: Package, seed: bv64, requested: Option<int>, newUnit: UnitId)

  function Work(t: Tables, package: Package): set<TaskId> {
    if package in t.packages then t.packages[package] else {}
  }

  ghost function ScheduleOne(t: Tables, batch: Batch, now: int): (Tables, Result<Slot, ScheduleError>) {
    if Work(t, batch.package) == {} then (t, Err(NoWork(batch.package)))
    else
      var (grouped, unit) := CreateUnit(t, batch.newUnit, Work(t, batch.package), now);
      match unit
      case Err(error) => (grouped, Err(error))
      case Ok(id) => ScheduleAt(grouped, id, batch.package, batch.seed, batch.requested, now)
  }

  /** The tables the batch at position `k` sees. */
  ghost function Before(t: Tables, batches: seq<Batch>, now: int, k: nat): Tables
    requires k <= |batches|
  {
    if k == 0 then t else ScheduleOne(Before(t, batches, now, k - 1), batches[k - 1], now).0
  }

  ghost function Verdict(t: Tables, batches: seq<Batch>, now: int, k: nat): Result<Slot, ScheduleError>
    requires k < |batches|
  {
    ScheduleOne(Before(t, batches, now, k), batches[k], now).1
  }

  datatype BatchRefusal = BatchRefusal(index: nat, error: ScheduleError)

  ghost predicate Accepted(t: Tables, batches: seq<Batch>, now: int, k: nat)
    requires k <= |batches|
  {
    forall j | 0 <= j < k :: Verdict(t, batches, now, j).Ok?
  }

  method ScheduleOneCapturedWork(store: QueueStore, batch: Batch, now: int) returns (r: Result<Slot, ScheduleError>)
    modifies store
    ensures (store.Value(), r) == ScheduleOne(old(store.Value()), batch, now)
  {
    hide CreateUnit, ScheduleAt;
    var work := Work(store.Value(), batch.package);
    if work == {} {
      return Err(NoWork(batch.package));
    }
    var unit :- store.CreateReleaseUnit(batch.newUnit, work, now);
    r := store.SelectTime(unit, batch.package, batch.seed, batch.requested, now);
  }

  /** Schedules the batches in order in one transaction; the first refusal undoes all of them. */
  method ScheduleCheckoutBatches(store: QueueStore, batches: seq<Batch>, now: int)
    returns (r: Result<seq<Slot>, BatchRefusal>)
    modifies store
    ensures r.Ok? ==>
      && Accepted(old(store.Value()), batches, now, |batches|)
      && store.Value() == Before(old(store.Value()), batches, now, |batches|)
      && |r.value| == |batches|
      && forall k | 0 <= k < |batches| :: Verdict(old(store.Value()), batches, now, k) == Ok(r.value[k])
    ensures r.Err? ==>
      && store.Value() == old(store.Value())
      && 1 <= r.error.index <= |batches|
      && Accepted(old(store.Value()), batches, now, r.error.index - 1)
      && Verdict(old(store.Value()), batches, now, r.error.index - 1) == Err(r.error.error)
  {
    hide ScheduleOne;
    ghost var t := store.Value();
    var slots, units, groups, tasks := store.slots, store.units, store.groups, store.tasks;
    var scheduled: seq<Slot> := [];
    for k := 0 to |batches|
      invariant Accepted(t, batches, now, k) && |scheduled| == k
      invariant store.Value() == Before(t, batches, now, k)
      invariant forall j | 0 <= j < k :: Verdict(t, batches, now, j) == Ok(scheduled[j])
    {
      var slot := ScheduleOneCapturedWork(store, batches[k], now);
      if slot.Err? {
        store.slots, store.units, store.groups, store.tasks := slots, units, groups, tasks;
        return Err(BatchRefusal(k + 1, slot.error));
      }
      scheduled := scheduled + [slot.value];
    }
    return Ok(scheduled);
  }

  // ------------------------------------------------------- what a plan keeps

  lemma GroupingKeeps(t: Tables, id: UnitId, tasks: set<TaskId>, now: int)
    ensures var v := CreateUnit(t, id, tasks, now).0;
            && v == t.(units := v.units, groups := v.groups) && Effective(v) == Effective(t)
  {
  }

  /** One accepted batch either finds its time already recorded or adds a well chosen one. */
  ghost predicate Extends(t: Tables, v: Tables, policy: SchedulePolicy, batch: Batch, now: int, slot: Slot) {
    && v.policy == t.policy && v.over == t.over
    && (v.slots == t.slots
        || (&& Find(t.slots, slot.unit).None? && v.slots == InsertRow(slot, t.slots)
            && WellChosen(policy, batch.requested, now, SelectedTimes(t.slots), slot.selectedAt)))
  }

  lemma BatchExtends(t: Tables, policy: SchedulePolicy, batch: Batch, now: int)
    requires Governed(t, policy) && ScheduleOne(t, batch, now).1.Ok?
    ensures var (v, r) := ScheduleOne(t, batch, now); Extends(t, v, policy, batch, now, r.value) && Governed(v, policy)
  {
    hide ScheduleAt, CreateUnit, WellChosen;
    GroupingKeeps(t, batch.newUnit, Work(t, batch.package), now);
    var (grouped, unit) := CreateUnit(t, batch.newUnit, Work(t, batch.package), now);
    if Find(grouped.slots, unit.value).None? {
      ScheduledHolds(grouped, unit.value, batch.package, batch.seed, batch.requested, now, policy);
    } else {
      AlreadyHeld(grouped, unit.value, batch, now);
    }
  }

  lemma AlreadyHeld(t: Tables, unit: UnitId, batch: Batch, now: int)
    requires Find(t.slots, unit).Some?
    ensures ScheduleAt(t, unit, batch.package, batch.seed, batch.requested, now) == (t, Ok(Find(t.slots, unit).value))
  {
  }

  /** The times added by the first `k` batches. */
  ghost function Added(t: Tables, batches: seq<Batch>, now: int, k: nat): seq<int>
    requires k <= |batches|
  {
    if k == 0 then []
    else
      var before, verdict := Before(t, batches, now, k - 1), Verdict(t, batches, now, k - 1);
      Added(t, batches, now, k - 1)
      + if verdict.Ok? && Before(t, batches, now, k).slots != before.slots then [verdict.value.selectedAt] else []
  }

  /** What holds while a plan is being scheduled. */
  ghost predicate PlanSound(t: Tables, batches: seq<Batch>, now: int, policy: SchedulePolicy, k: nat)
    requires k <= |batches|
  {
    var v := Before(t, batches, now, k);
    && Governed(v, policy)
    && (forall slot | slot in t.slots :: slot in v.slots)
    && multiset(SelectedTimes(v.slots)) == multiset(SelectedTimes(t.slots)) + multiset(Added(t, batches, now, k))
    && (DistinctApart(SelectedTimes(t.slots), policy.SpacingMs()) ==> DistinctApart(SelectedTimes(v.slots), policy.SpacingMs()))
    && (InListOrder(t.slots) ==> InListOrder(v.slots))
  }

  lemma PlanStarts(t: Tables, batches: seq<Batch>, now: int, policy: SchedulePolicy)
    requires Governed(t, policy)
    ensures PlanSound(t, batches, now, policy, 0)
  {
    hide Governed, DistinctApart, InListOrder, ScheduleOne;
    assert multiset(SelectedTimes(t.slots)) + multiset(Added(t, batches, now, 0)) == multiset(SelectedTimes(t.slots));
  }

  lemma {:induction false} PlanKeeps(t: Tables, batches: seq<Batch>, now: int, policy: SchedulePolicy, k: nat)
    requires Governed(t, policy) && k <= |batches| && Accepted(t, batches, now, k)
    ensures PlanSound(t, batches, now, policy, k)
    decreases k
  {
    hide PlanSound, Governed, Verdict;
    if k > 0 {
      PlanKeeps(t, batches, now, policy, k - 1);
      PlanStep(t, batches, now, policy, k - 1);
    } else {
      PlanStarts(t, batches, now, policy);
    }
  }

  lemma PlanTimes(t: Tables, batches: seq<Batch>, now: int, policy: SchedulePolicy, k: nat)
    requires k <= |batches| && PlanSound(t, batches, now, policy, k)
    ensures var v := Before(t, batches, now, k);
            && Governed(v, policy)
            && multiset(SelectedTimes(v.slots)) == multiset(SelectedTimes(t.slots)) + multiset(Added(t, batches, now, k))
  {
  }

  lemma PlanStep(t: Tables, batches: seq<Batch>, now: int, policy: SchedulePolicy, k: nat)
    requires k < |batches| && PlanSound(t, batches, now, policy, k) && Verdict(t, batches, now, k).Ok?
    ensures PlanSound(t, batches, now, policy, k + 1)
  {
    hide ScheduleOne, Governed, WellChosen, InListOrder, DistinctApart;
    var before, after, slot := Before(t, batches, now, k), Before(t, batches, now, k + 1), Verdict(t, batches, now, k).value;
    BatchExtends(before, policy, batches[k], now);
    if after.slots != before.slots {
      InsertRowHolds(slot, before.slots);
      TimesOfInserted(slot, before.slots);
      forall x | x in before.slots ensures x in after.slots {
        assert x in multiset(after.slots);
      }
      if DistinctApart(SelectedTimes(before.slots), policy.SpacingMs()) {
        ChosenKeepsApart(policy, batches[k].requested, now, SelectedTimes(before.slots), slot.selectedAt,
                         SelectedTimes(after.slots));
      }
      if InListOrder(before.slots) {
        InsertRowLists(slot, before.slots);
      }
      assert Added(t, batches, now, k + 1) == Added(t, batches, now, k) + [slot.selectedAt];
    } else {
      assert Added(t, batches, now, k + 1) == Added(t, batches, now, k);
    }
  }

  /**
   * An accepted plan leaves every earlier release time in place and keeps different times at least the
   * spacing apart. Times that were all spaced stay all spaced exactly when no two end up equal.
   */
  lemma PlanKeepsSpacing(t: Tables, batches: seq<Batch>, now: int, policy: SchedulePolicy)
    requires Governed(t, policy) && Accepted(t, batches, now, |batches|)
    requires Spread(SelectedTimes(t.slots), policy.SpacingMs())
    ensures var v := Before(t, batches, now, |batches|);
            && (forall slot | slot in t.slots :: slot in v.slots)
            && DistinctApart(SelectedTimes(v.slots), policy.SpacingMs())
            && (Spread(SelectedTimes(v.slots), policy.SpacingMs()) <==> NoneTwice(SelectedTimes(v.slots)))
  {
    hide Governed, DistinctApart, Spread, NoneTwice, Before;
    PlanKeeps(t, batches, now, policy, |batches|);
    PositiveSpacing(t, policy);
    SpreadExactly(SelectedTimes(t.slots), policy.SpacingMs());
    SpreadExactly(SelectedTimes(Before(t, batches, now, |batches|).slots), policy.SpacingMs());
  }

  lemma PositiveSpacing(t: Tables, policy: SchedulePolicy)
    requires Governed(t, policy)
    ensures policy.SpacingMs() > 0
  {
  }

  // ------------------------------------------------------- the daily maximum

  /** No batch was given a time that was already taken when its turn came. */
  ghost predicate TimesAreNew(t: Tables, batches: seq<Batch>, now: int, k: nat)
    requires k <= |batches|
  {
    forall j | 0 <= j < k && Verdict(t, batches, now, j).Ok?
               && Before(t, batches, now, j + 1).slots != Before(t, batches, now, j).slots ::
      Verdict(t, batches, now, j).value.selectedAt !in SelectedTimes(Before(t, batches, now, j).slots)
  }

  lemma OneMoreWithinMaximum(policy: SchedulePolicy, already: seq<int>, added: seq<int>, existing: seq<int>, at: int)
    requires WithinDailyMaximum(policy, already, added) && WithinDailyMaximum(policy, existing, [at])
    requires multiset(existing) == multiset(already) + multiset(added)
    ensures WithinDailyMaximum(policy, already, added + [at])
  {
    var zone := policy.timezone;
    forall date: int | CountOn(zone, added + [at], date) > 0
      ensures CountOn(zone, already, date) + CountOn(zone, added + [at], date) <= policy.dailyReleases.maximum
    {
      CountOnAppend(zone, added, [at], date);
      CountOnAppend(zone, already, added, date);
      assert multiset(already + added) == multiset(existing);
      CountOnPermuted(zone, already + added, existing, date);
    }
  }

  /** Every day an accepted plan with new times adds to stays within the daily maximum. */
  lemma {:induction false} PlanKeepsMaximum(t: Tables, batches: seq<Batch>, now: int, policy: SchedulePolicy, k: nat)
    requires Governed(t, policy) && k <= |batches| && Accepted(t, batches, now, k) && TimesAreNew(t, batches, now, k)
    ensures WithinDailyMaximum(policy, SelectedTimes(t.slots), Added(t, batches, now, k))
    decreases k
  {
    hide Governed, WithinDailyMaximum, ScheduleOne, PlanSound, Extends;
    if k > 0 {
      PlanKeepsMaximum(t, batches, now, policy, k - 1);
      PlanKeeps(t, batches, now, policy, k - 1);
      PlanTimes(t, batches, now, policy, k - 1);
      NextWithinMaximum(t, batches, now, policy, k - 1);
    } else {
      NothingAdded(policy, SelectedTimes(t.slots));
    }
  }

  lemma NothingAdded(policy: SchedulePolicy, existing: seq<int>)
    ensures WithinDailyMaximum(policy, existing, [])
  {
  }

  lemma NextWithinMaximum(t: Tables, batches: seq<Batch>, now: int, policy: SchedulePolicy, k: nat)
    requires k < |batches| && Accepted(t, batches, now, k + 1) && TimesAreNew(t, batches, now, k + 1)
    requires Governed(Before(t, batches, now, k), policy)
    requires multiset(SelectedTimes(Before(t, batches, now, k).slots))
             == multiset(SelectedTimes(t.slots)) + multiset(Added(t, batches, now, k))
    requires WithinDailyMaximum(policy, SelectedTimes(t.slots), Added(t, batches, now, k))
    ensures WithinDailyMaximum(policy, SelectedTimes(t.slots), Added(t, batches, now, k + 1))
  {
    hide Governed, WithinDailyMaximum, ScheduleOne;
    var before := Before(t, batches, now, k);
    var at := if Verdict(t, batches, now, k).Ok? then Verdict(t, batches, now, k).value.selectedAt else 0;
    BatchExtends(before, policy, batches[k], now);
    if Before(t, batches, now, k + 1).slots != before.slots {
      OneMoreWithinMaximum(policy, SelectedTimes(t.slots), Added(t, batches, now, k), SelectedTimes(before.slots), at);
      assert Added(t, batches, now, k + 1) == Added(t, batches, now, k) + [at];
    } else {
      assert Added(t, batches, now, k + 1) == Added(t, batches, now, k);
    }
  }

  // ------------------------------------------------------ the advisory check

  datatype Advice = Allowed | Rejected(error: PolicyError) | Undecidable(reason: ScheduleError)

  /** Whether a time could be requested now, with times not yet recorded counted beside the recorded ones. */
  function ValidateReleaseTime(t: Tables, requested: int, pending: seq<int>, now: int): Advice {
    match Effective(t)
    case Err(error) => Undecidable(error)
    case Ok(policy) =>
      match ValidateRequestedSlot(policy, requested, now, SelectedTimes(t.slots) + pending)
      case Ok(_) => Allowed
      case Err(error) => Rejected(error)
  }

  /**
   * A batch is judged exactly as the advisory check judges its time with the earlier batches' times
   * passed as pending, even though the scheduler compares it with what is by then recorded.
   */
  lemma SameVerdictAsAdvice(t: Tables, batches: seq<Batch>, now: int, policy: SchedulePolicy, k: nat, instant: int)
    requires Governed(t, policy) && k < |batches| && Accepted(t, batches, now, k)
    ensures var existing := SelectedTimes(Before(t, batches, now, k).slots);
            var chosen := ChooseTime(policy, batches[k].seed, Some(instant), now, existing);
            match ValidateReleaseTime(t, instant, Added(t, batches, now, k), now)
            case Allowed => chosen.Ok? && chosen.value.selectedAt == instant
            case Rejected(error) => chosen == Err(RequestedTimeRefused(error))
            case Undecidable(_) => false
  {
    hide Draw;
    PlanKeeps(t, batches, now, policy, k);
    var existing := SelectedTimes(Before(t, batches, now, k).slots);
    var pending := Added(t, batches, now, k);
    assert multiset(SelectedTimes(t.slots) + pending) == multiset(existing);
    VerdictIgnoresOrder(policy, instant, now, SelectedTimes(t.slots) + pending, existing);
    AcceptedExactly(policy, instant, now, existing);
  }

  /** What that judgement means for the batch as a whole, once its work is grouped and has no time yet. */
  lemma AdviceDecidesBatch(t: Tables, batches: seq<Batch>, now: int, policy: SchedulePolicy, k: nat, unit: UnitId)
    requires Governed(t, policy) && k < |batches| && Accepted(t, batches, now, k) && batches[k].requested.Some?
    requires var b := Before(t, batches, now, k);
             CreateUnit(b, batches[k].newUnit, Work(b, batches[k].package), now).1 == Ok(unit)
             && unit in CreateUnit(b, batches[k].newUnit, Work(b, batches[k].package), now).0.units
             && Find(b.slots, unit).None? && Work(b, batches[k].package) != {}
    ensures var verdict := Verdict(t, batches, now, k);
            match ValidateReleaseTime(t, batches[k].requested.value, Added(t, batches, now, k), now)
            case Allowed =>
              if verdict.Ok? then verdict.value.selectedAt == batches[k].requested.value
              else !verdict.error.RequestedTimeRefused?
            case Rejected(error) => verdict == Err(RequestedTimeRefused(error))
            case Undecidable(_) => false
  {
    hide ChooseTime, ValidateReleaseTime, CreateUnit, ScheduleOne, Effective;
    SameVerdictAsAdvice(t, batches, now, policy, k, batches[k].requested.value);
    PlanKeeps(t, batches, now, policy, k);
    GovernedBy(Before(t, batches, now, k), policy);
    ChosenDecides(Before(t, batches, now, k), batches[k], now, policy, unit);
  }

  /** Once a batch's unit is known to have no time, the chosen time decides, short of the store refusing it. */
  lemma ChosenDecides(t: Tables, batch: Batch, now: int, policy: SchedulePolicy, unit: UnitId)
    requires Effective(t) == Ok(policy) && Find(t.slots, unit).None? && Work(t, batch.package) != {}
    requires var (grouped, r) := CreateUnit(t, batch.newUnit, Work(t, batch.package), now);
             r == Ok(unit) && unit in grouped.units
    ensures var chosen := ChooseTime(policy, batch.seed, batch.requested, now, SelectedTimes(t.slots));
            var verdict := ScheduleOne(t, batch, now).1;
            && (chosen.Err? ==> verdict == Err(chosen.error))
            && (chosen.Ok? ==> if verdict.Ok? then verdict.value.selectedAt == chosen.value.selectedAt
                               else !verdict.error.RequestedTimeRefused?)
  {
    hide ChooseTime, CreateUnit, Effective, Ineligible, PackageHasSlot;
    GroupingKeeps(t, batch.newUnit, Work(t, batch.package), now);
  }

  lemma GovernedBy(t: Tables, policy: SchedulePolicy)
    requires Governed(t, policy)
    ensures Effective(t) == Ok(policy)
  {
  }

  /** Asking for an instant that is already taken gets the verdict the instant got when it was free. */
  lemma TakenInstantIsNoObstacle(policy: SchedulePolicy, instant: int, now: int, existing: seq<int>)
    requires policy.Valid() && Coherent(policy.timezone)
    requires ValidateRequestedSlot(policy, instant, now, existing).Ok?
    ensures ValidateRequestedSlot(policy, instant, now, existing + [instant]).Ok?
    ensures !NoneTwice(existing + [instant] + [instant])
  {
    HeldSlotIsNoConflict(policy, instant, now, existing);
    HeldSlotIsNoConflict(policy, instant, now, existing + [instant]);
    OthersOfTaken(existing, instant);
    var all := existing + [instant] + [instant];
    assert all[|existing|] == all[|existing| + 1];
  }

  lemma {:induction false} OthersOfTaken(existing: seq<int>, instant: int)
    ensures Others(existing + [instant], instant) == Others(existing, instant)
  {
    if existing == [] {
      assert ([] + [instant])[1..] == [];
    } else {
      assert (existing + [instant])[1..] == existing[1..] + [instant];
      OthersOfTaken(existing[1..], instant);
    }
  }
}
