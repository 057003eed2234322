/** The queue's rules in plain terms: what a task waits for, what grouping and recording refuse, and what they leave alone. */
module QueueRules {
  import opened Wrappers
  import opened TaskGraphs
  import R = ReleaseUnits
  import opened TaskLifecycle
  import opened SchedulePolicies
  import opened ScheduleRules
  import opened ScheduleStores
  import opened ScheduleFacts
  import opened BatchScheduling
  import opened MissedWindows
  import opened MilestoneFacts

  // ------------------------------------------------------------- waiting

  /**
   * A task waits for a prerequisite it names that is missing, still planned or building where capture is asked
   * for, or not published where publication is; being on the development branch is enough where only that is.
   */
  lemma WaitsExactly(t: Tables, task: TaskId, p: TaskId)
    ensures p in WaitsFor(t, task) <==>
      && task in t.prerequisites && p in t.prerequisites[task]
      && (p in t.tasks ==>
            match t.prerequisites[task][p]
            case Captured => t.tasks[p] in {Planned, Building}
            case DevelopmentAvailable => t.tasks[p] != Published && p !in t.available
            case TargetPublished => t.tasks[p] != Published)
  {
  }

  /** The first obstacle: no smaller task of the unit is missing, out of the queue or waiting for work outside it. */
  ghost predicate FirstInTheWay(t: Tables, unit: set<TaskId>, task: TaskId) {
    && task in unit && InTheWay(t, unit, task)
    && forall other | other in unit && InTheWay(t, unit, other) :: task.bits <= other.bits
  }

  ghost predicate InTheWay(t: Tables, unit: set<TaskId>, task: TaskId) {
    task !in t.tasks || t.tasks[task] != Queued || exists p :: p in WaitsFor(t, task) && p !in unit
  }

  /** The first prerequisite outside the unit that the task waits for. */
  ghost predicate FirstAwaited(t: Tables, unit: set<TaskId>, task: TaskId, p: TaskId) {
    && p in WaitsFor(t, task) && p !in unit
    && forall other | other in WaitsFor(t, task) && other !in unit :: p.bits <= other.bits
  }

  lemma IneligibleIsInTheWay(t: Tables, unit: set<TaskId>, task: TaskId)
    ensures task in Ineligible(t, unit) <==> task in unit && InTheWay(t, unit, task)
  {
    hide WaitsFor;
    if task in unit && !InTheWay(t, unit, task) {
      forall p | p in WaitsFor(t, task) ensures p in unit {
      }
    }
  }

  lemma FirstIsInTheWay(t: Tables, unit: set<TaskId>)
    requires Ineligible(t, unit) != {}
    ensures FirstInTheWay(t, unit, First(Ineligible(t, unit)))
  {
    hide InTheWay;
    var first := First(Ineligible(t, unit));
    IneligibleIsInTheWay(t, unit, first);
    forall other | other in unit && InTheWay(t, unit, other) ensures first.bits <= other.bits {
      IneligibleIsInTheWay(t, unit, other);
      assert other == first || first.Before(other);
    }
  }

  lemma FirstIsAwaited(t: Tables, unit: set<TaskId>, task: TaskId)
    requires WaitsFor(t, task) - unit != {}
    ensures FirstAwaited(t, unit, task, First(WaitsFor(t, task) - unit))
  {
    hide WaitsFor;
    var first := First(WaitsFor(t, task) - unit);
    forall other | other in WaitsFor(t, task) && other !in unit ensures first.bits <= other.bits {
      assert other in WaitsFor(t, task) - unit;
      assert other == first || first.Before(other);
    }
  }

  // ------------------------------------------------------------ recording

  /** What is wrong with a time for a unit that has none: the first of these, in this order. */
  ghost predicate Prevents(t: Tables, slot: Slot, members: set<TaskId>, error: ScheduleError) {
    match error
    case MissingUnit(unit) => unit == slot.unit && slot.unit !in t.units
    case MissingPackage(package) => package == slot.package && slot.unit in t.units && slot.package !in t.packages
    case TasksDiffer => slot.unit in t.units && slot.package in t.packages && t.packages[slot.package] != members
    case MissingTask(task) =>
      && slot.unit in t.units && slot.package in t.packages && t.packages[slot.package] == members && task !in t.tasks
      && (FirstInTheWay(t, members, task)
          || exists waiting :: FirstInTheWay(t, members, waiting) && waiting in t.tasks && t.tasks[waiting] == Queued
                               && FirstAwaited(t, members, waiting, task))
    case NotQueued(task) =>
      && slot.unit in t.units && slot.package in t.packages && t.packages[slot.package] == members
      && FirstInTheWay(t, members, task) && task in t.tasks && t.tasks[task] != Queued
    case Waits(task, prerequisite) =>
      && slot.unit in t.units && slot.package in t.packages && t.packages[slot.package] == members
      && FirstInTheWay(t, members, task) && task in t.tasks && t.tasks[task] == Queued
      && FirstAwaited(t, members, task, prerequisite) && prerequisite in t.tasks
    case AlreadyScheduled(package) =>
      && package == slot.package && slot.unit in t.units && slot.package in t.packages
      && t.packages[slot.package] == members && (forall task | task in members :: !InTheWay(t, members, task))
      && exists s | s in t.slots :: s.package == slot.package
    case _ => false
  }

  lemma ObstacleIsFirst(t: Tables, slot: Slot, members: set<TaskId>)
    requires slot.unit in t.units && slot.package in t.packages && t.packages[slot.package] == members
    requires Ineligible(t, members) != {}
    ensures Prevents(t, slot, members, Obstacle(t, members, First(Ineligible(t, members))))
  {
    hide WaitsFor, FirstInTheWay, FirstAwaited, Ineligible;
    var task := First(Ineligible(t, members));
    FirstIsInTheWay(t, members);
    if task in t.tasks && t.tasks[task].Queued? {
      AwaitsOutside(t, members, task);
      FirstIsAwaited(t, members, task);
    }
  }

  lemma AwaitsOutside(t: Tables, unit: set<TaskId>, task: TaskId)
    requires task in Ineligible(t, unit) && task in t.tasks && t.tasks[task].Queued?
    ensures WaitsFor(t, task) - unit != {}
  {
    hide WaitsFor;
    IneligibleIsInTheWay(t, unit, task);
    var p :| p in WaitsFor(t, task) && p !in unit;
    assert p in WaitsFor(t, task) - unit;
  }

  /** A time that cannot be recorded is refused for a reason that is true of the queue, and the queue stays as it is. */
  lemma RecordingRefusalsAreTrue(t: Tables, slot: Slot)
    requires Persist(t, slot).1.Err?
    ensures Persist(t, slot).0 == t
    ensures Persist(t, slot).1 == Err(InvalidTimes) <==> slot.eligibleAt < 0 || slot.selectedAt < slot.eligibleAt
    ensures Persist(t, slot).1.error.InvalidTimes?
            || Prevents(t, slot, Members(t.groups, slot.unit), Persist(t, slot).1.error)
  {
    hide WaitsFor, FirstInTheWay, FirstAwaited, Ineligible, Obstacle, Find;
    var members := Members(t.groups, slot.unit);
    if 0 <= slot.eligibleAt <= slot.selectedAt && PersistRefusal(t, slot).Some? {
      if slot.unit in t.units && slot.package in t.packages && t.packages[slot.package] == members {
        if Ineligible(t, members) != {} {
          ObstacleIsFirst(t, slot, members);
          ObstacleIsNotInvalidTimes(t, members);
        } else {
          forall task | task in members ensures !InTheWay(t, members, task) {
            IneligibleIsInTheWay(t, members, task);
          }
        }
      }
    }
  }

  lemma ObstacleIsNotInvalidTimes(t: Tables, unit: set<TaskId>)
    requires Ineligible(t, unit) != {}
    ensures !Obstacle(t, unit, First(Ineligible(t, unit))).InvalidTimes?
  {
    hide WaitsFor, Ineligible;
  }

  // ------------------------------------------------------------- grouping

  /** What is wrong with a grouping: the first of these, in this order. */
  ghost predicate Ungroupable(t: Tables, id: UnitId, tasks: set<TaskId>, now: int, error: ScheduleError) {
    match error
    case InvalidTimes => now < 0
    case UnknownTask(task) =>
      now >= 0 && task in tasks && task !in t.tasks && forall other | other in tasks && other !in t.tasks :: task.bits <= other.bits
    case UnitRefused =>
      && now >= 0 && tasks <= t.tasks.Keys
      && (tasks == {} || exists task, p :: task in tasks && NeedsCaptured(t, task, p) && p !in tasks)
    case Regrouped(task) =>
      && now >= 0 && tasks <= t.tasks.Keys && task in tasks && task in t.groups
      && (forall other | other in tasks && other in t.groups :: task.bits <= other.bits)
      && Members(t.groups, t.groups[task]) != tasks
    case UnitIdTaken(taken) => now >= 0 && tasks <= t.tasks.Keys && taken == id && id in t.units
    case _ => false
  }

  predicate NeedsCaptured(t: Tables, task: TaskId, p: TaskId) {
    task in t.prerequisites && p in t.prerequisites[task] && t.prerequisites[task][p].Captured?
  }

  lemma CouplingNeedsCaptured(t: Tables, task: TaskId, p: TaskId)
    ensures task in Coupling(t.prerequisites) && p in Coupling(t.prerequisites)[task] <==> NeedsCaptured(t, task, p)
  {
    if NeedsCaptured(t, task, p) {
      assert p in Captures(t.prerequisites[task]);
    }
  }

  lemma RefusedUnitLacksOne(t: Tables, id: UnitId, tasks: set<TaskId>)
    ensures R.NewUnit(id.bits, tasks, Coupling(t.prerequisites)).Err? <==>
      tasks == {} || exists task, p :: task in tasks && NeedsCaptured(t, task, p) && p !in tasks
  {
    R.AcceptedExactly(id.bits, tasks, Coupling(t.prerequisites));
    hide R.NewUnit, NeedsCaptured, Coupling;
    forall task, p
      ensures task in Coupling(t.prerequisites) && p in Coupling(t.prerequisites)[task] <==> NeedsCaptured(t, task, p)
    {
      CouplingNeedsCaptured(t, task, p);
    }
  }

  lemma FirstOf(s: set<TaskId>)
    requires s != {}
    ensures First(s) in s && forall t | t in s :: First(s).bits <= t.bits
  {
    forall t | t in s ensures First(s).bits <= t.bits {
      assert t == First(s) || First(s).Before(t);
    }
  }

  lemma AllPlanned(t: Tables, tasks: set<TaskId>)
    requires Unplanned(t, tasks) == {}
    ensures tasks <= t.tasks.Keys
  {
    forall task | task in tasks ensures task in t.tasks {
      assert task !in Unplanned(t, tasks);
    }
  }

  /** A grouping is refused for a reason that is true of the queue, and the queue stays as it is. */
  lemma GroupingRefusalsAreTrue(t: Tables, id: UnitId, tasks: set<TaskId>, now: int)
    requires CreateUnit(t, id, tasks, now).1.Err?
    ensures CreateUnit(t, id, tasks, now).0 == t
    ensures Ungroupable(t, id, tasks, now, CreateUnit(t, id, tasks, now).1.error)
  {
    hide R.NewUnit, Coupling, Members, NeedsCaptured;
    RefusedUnitLacksOne(t, id, tasks);
    if Unplanned(t, tasks) != {} {
      FirstOf(Unplanned(t, tasks));
      forall other | other in tasks && other !in t.tasks ensures other in Unplanned(t, tasks) {
      }
    } else {
      AllPlanned(t, tasks);
      if Grouped(t, tasks) != {} {
        FirstOf(Grouped(t, tasks));
        forall other | other in tasks && other in t.groups ensures other in Grouped(t, tasks) {
        }
      }
    }
  }

  /** A new unit takes no task from another. */
  lemma GroupingLeavesOthers(t: Tables, id: UnitId, tasks: set<TaskId>, now: int, other: UnitId)
    requires CreateUnit(t, id, tasks, now).1 != Ok(other)
    ensures Members(CreateUnit(t, id, tasks, now).0.groups, other) == Members(t.groups, other)
    ensures CreateUnit(t, id, tasks, now).0 ==
      t.(units := CreateUnit(t, id, tasks, now).0.units, groups := CreateUnit(t, id, tasks, now).0.groups)
  {
    hide R.NewUnit, Coupling;
    var v := CreateUnit(t, id, tasks, now).0;
    if v != t {
      forall task ensures task in Members(v.groups, other) <==> task in Members(t.groups, other) {
        assert task in tasks ==> task !in Grouped(t, tasks);
      }
    }
  }

  // ------------------------------------------------------------ withdrawing

  /** An attempt has moved the task on, or its row is gone. */
  predicate MovedOn(t: Tables, task: TaskId) {
    task !in t.tasks || t.tasks[task] !in {Scheduled, Published, Cancelled, Superseded, Blocked}
  }

  /** No smaller task of the unit has moved on. */
  ghost predicate FirstMovedOn(t: Tables, unit: set<TaskId>, task: TaskId) {
    task in unit && MovedOn(t, task) && forall other | other in unit && MovedOn(t, other) :: task.bits <= other.bits
  }

  lemma BusyHasMovedOn(t: Tables, unit: set<TaskId>)
    ensures forall task :: task in Busy(t, unit) <==> task in unit && MovedOn(t, task)
  {
  }

  /**
   * A time is withdrawn unless its unit's row is gone or one of its tasks has moved on, which is a conflict,
   * or is gone, which is not: the first such task is named. Refused or not there, nothing changes.
   */
  lemma WithdrawalIsExact(t: Tables, unit: UnitId)
    ensures var (v, r) := Invalidate(t, unit);
            var members := Members(t.groups, unit);
            && (r == Ok(None) <==> forall k | 0 <= k < |t.slots| :: t.slots[k].unit != unit)
            && (r == Ok(None) || r.Err? ==> v == t)
            && (r.Err? ==>
                  match r.error
                  case MissingUnit(gone) => gone == unit && unit !in t.units
                  case MissingTask(task) =>
                    unit in t.units && FirstMovedOn(t, members, task) && task !in t.tasks && !r.error.IsConflict()
                  case Owned(task) =>
                    unit in t.units && FirstMovedOn(t, members, task) && task in t.tasks && r.error.IsConflict()
                  case _ => false)
            && (r.Ok? && r.value.Some? ==>
                  && r.value.value in t.slots && r.value.value.unit == unit
                  && v == t.(slots := RemoveRow(t.slots, unit), tasks := v.tasks) && v.tasks.Keys == t.tasks.Keys
                  && (forall task | task in t.tasks :: v.tasks[task] ==
                        if task in members && t.tasks[task] == Scheduled then Queued else t.tasks[task])
                  && unit in t.units && forall task | task in members :: !MovedOn(t, task))
  {
    hide MovedOn;
    var members := Members(t.groups, unit);
    FindHolds(t.slots, unit);
    BusyHasMovedOn(t, members);
    if Busy(t, members) != {} {
      FirstOf(Busy(t, members));
    } else {
      forall task | task in members ensures !MovedOn(t, task) {
        assert task !in Busy(t, members);
      }
    }
  }

  /** Rows that are gone stop the pass with an error; only a task that has moved on retains an overdue time. */
  lemma MissingRowsStopThePass(t: Tables, slot: Slot, k: nat, pass: Pass)
    requires !slot.onRequest && k >= pass.allowance && Find(t.slots, slot.unit).Some?
    ensures slot.unit !in t.units ==> Handle(t, slot, k, pass) == (t, Err(MissingUnit(slot.unit)))
    ensures forall task | slot.unit in t.units && FirstMovedOn(t, Members(t.groups, slot.unit), task) ::
      Handle(t, slot, k, pass) == (t, if task in t.tasks then Ok(Retained) else Err(MissingTask(task)))
  {
    hide ScheduleAt, SeedAt, MovedOn;
    var members := Members(t.groups, slot.unit);
    BusyHasMovedOn(t, members);
    if Busy(t, members) != {} {
      FirstOf(Busy(t, members));
      var first := First(Busy(t, members));
      forall task | FirstMovedOn(t, members, task) ensures task == first {
        assert task.bits == first.bits;
        assert task == TaskId(task.bits) && first == TaskId(first.bits);
      }
    }
  }

  // ------------------------------------------------------- plans and policies

  /** The work a batch schedules is its package's tasks as one unit; a package that carries none has no work. */
  lemma BatchCarriesItsPackage(t: Tables, batch: Batch, now: int)
    requires forall task | task in t.groups :: t.groups[task] in t.units
    ensures var (v, r) := ScheduleOne(t, batch, now);
            && (r == Err(NoWork(batch.package)) <==> batch.package !in t.packages || t.packages[batch.package] == {})
            && (r.Ok? ==> Members(v.groups, r.value.unit) == t.packages[batch.package])
  {
    hide CreateUnit, ScheduleAt, Members;
    var tasks := Work(t, batch.package);
    if tasks != {} {
      var (grouped, unit) := CreateUnit(t, batch.newUnit, tasks, now);
      UnitIsTheWork(t, batch.newUnit, tasks, now);
      if unit.Err? {
        GroupingRefusalsAreTrue(t, batch.newUnit, tasks, now);
      } else {
        RecordingLeavesGroups(grouped, unit.value, batch.package, batch.seed, batch.requested, now);
        RecordsForTheUnit(grouped, unit.value, batch.package, batch.seed, batch.requested, now);
      }
    }
  }

  lemma UnitIsTheWork(t: Tables, id: UnitId, tasks: set<TaskId>, now: int)
    requires forall task | task in t.groups :: t.groups[task] in t.units
    ensures var (v, r) := CreateUnit(t, id, tasks, now); r.Ok? ==> Members(v.groups, r.value) == tasks
  {
    GroupingEffect(t, id, tasks, now);
    hide CreateUnit, R.NewUnit, Coupling;
  }

  lemma RecordsForTheUnit(t: Tables, unit: UnitId, package: Package, seed: bv64, requested: Option<int>, now: int)
    ensures var r := ScheduleAt(t, unit, package, seed, requested, now).1;
            (r.Ok? ==> r.value.unit == unit) && (r.Err? ==> !r.error.NoWork?)
  {
    FindHolds(t.slots, unit);
    hide Draw, Find, Ineligible, PackageHasSlot, Members, WithOverride;
  }

  /** The policy in force: the repository's own, or its settings with those the override names replaced. */
  lemma PolicyInForce(t: Tables, settings: SchedulePolicy)
    ensures t.policy.None? ==> Effective(t) == Err(MissingPolicy)
    ensures t.policy.Some? && t.over.None? ==> Effective(t) == Ok(t.policy.value)
    ensures t.policy.Some? && t.over.Some? && Combined(t.policy.value, t.over.value, settings) ==>
      match Effective(t)
      case Ok(policy) =>
        policy == settings.(windows := policy.windows) && multiset(policy.windows) == multiset(settings.windows)
      case Err(error) =>
        error.InvalidOverride? && (error.error.DailyLimitExceedsWindowCapacity?
          || Wrong(settings.allowedDays, settings.windows, settings.minimumSpacingMinutes,
                   settings.missedWindowBehavior, error.error))
  {
    hide WithOverride, Combined, Wrong;
    if t.policy.Some? && t.over.Some? && Combined(t.policy.value, t.over.value, settings) {
      OverrideReplacesWhatItNames(t.policy.value, t.over.value, settings);
    }
  }
}
