/** A recorded release time never turns an incomplete chain of prerequisites into a release. */
module MilestoneFacts {
  import opened Wrappers
  import opened TaskGraphs
  import R = ReleaseUnits
  import opened TaskLifecycle
  import opened ScheduleStores
  import opened ScheduleFacts

  /** A task's unit holds every prerequisite that capture alone satisfies. */
  ghost predicate GroupsClosed(t: Tables) {
    forall task, p | task in t.groups && p in Prerequisites(t, task) && Prerequisites(t, task)[p].Captured? ::
      p in t.groups && t.groups[p] == t.groups[task]
  }

  lemma CoupledTravels(t: Tables, id: UnitId, tasks: set<TaskId>, task: TaskId, p: TaskId)
    requires R.NewUnit(id.bits, tasks, Coupling(t.prerequisites)).Ok?
    requires task in tasks && p in Prerequisites(t, task) && Prerequisites(t, task)[p].Captured?
    ensures p in tasks
  {
    R.AcceptedExactly(id.bits, tasks, Coupling(t.prerequisites));
    assert p in Captures(t.prerequisites[task]);
    assert task in Coupling(t.prerequisites) && p in Coupling(t.prerequisites)[task];
  }

  /** What grouping does to the tables. */
  lemma GroupingEffect(t: Tables, id: UnitId, tasks: set<TaskId>, now: int)
    ensures var (v, r) := CreateUnit(t, id, tasks, now);
            || (v == t && (r.Ok? ==> Members(t.groups, r.value) == tasks))
            || (&& r == Ok(id) && id !in t.units && Grouped(t, tasks) == {}
                && R.NewUnit(id.bits, tasks, Coupling(t.prerequisites)).Ok?
                && v == t.(units := t.units + {id}, groups := Grouping(t.groups, tasks, id)))
  {
    hide R.NewUnit, Coupling, Members, Grouping, Unplanned;
  }

  /** Grouping work keeps units closed, and a unit just formed or found again is exactly the work. */
  lemma GroupingKeepsClosed(t: Tables, id: UnitId, tasks: set<TaskId>, now: int)
    requires GroupsClosed(t) && forall task | task in t.groups :: t.groups[task] in t.units
    ensures var (v, r) := CreateUnit(t, id, tasks, now);
            && GroupsClosed(v) && (forall task | task in v.groups :: v.groups[task] in v.units)
            && (r.Ok? ==> Members(v.groups, r.value) == tasks)
  {
    GroupingEffect(t, id, tasks, now);
    hide R.NewUnit, Coupling, CreateUnit;
    var v := CreateUnit(t, id, tasks, now).0;
    if v != t {
      forall task, p | task in v.groups && p in Prerequisites(v, task) && Prerequisites(v, task)[p].Captured?
        ensures p in v.groups && v.groups[p] == v.groups[task]
      {
        if task in tasks {
          CoupledTravels(t, id, tasks, task, p);
        } else {
          assert p in t.groups && t.groups[p] == t.groups[task];
          assert p !in Grouped(t, tasks);
        }
      }
    }
  }

  predicate SameGrouping(t: Tables, v: Tables) {
    v.groups == t.groups && v.units == t.units && v.prerequisites == t.prerequisites
  }

  /** Recording and withdrawing times leave the grouping alone. */
  lemma RecordingLeavesGroups(t: Tables, unit: UnitId, package: Package, seed: bv64, requested: Option<int>, now: int)
    ensures SameGrouping(t, ScheduleAt(t, unit, package, seed, requested, now).0)
  {
    hide ChooseTime, Effective, PersistRefusal, InsertRow, Scheduling, Members, Find;
  }

  lemma WithdrawingLeavesGroups(t: Tables, unit: UnitId)
    ensures SameGrouping(t, Invalidate(t, unit).0)
  {
    hide Busy, Members, RemoveRow, Withdrawing, Find;
  }

  lemma SameGroupingStaysClosed(t: Tables, v: Tables)
    requires GroupsClosed(t) && SameGrouping(t, v)
    ensures GroupsClosed(v)
  {
    forall task, p | task in v.groups && p in Prerequisites(v, task) && Prerequisites(v, task)[p].Captured?
      ensures p in v.groups && v.groups[p] == v.groups[task]
    {
      assert p in Prerequisites(t, task);
    }
  }

  /** Published to the target, or to the development branch when that is all the task asks for. */
  predicate Confirmed(t: Tables, p: TaskId, milestone: TargetMilestone) {
    p in t.tasks && (t.tasks[p].Published? || (milestone.DevelopmentAvailable? && p in t.available))
  }

  /** In a closed grouping a unit waits for publications outside it, never for a capture. */
  lemma OnlyPublicationIsWaitedFor(t: Tables, unit: UnitId, task: TaskId)
    requires GroupsClosed(t) && task in Members(t.groups, unit)
    ensures WaitsFor(t, task) <= Members(t.groups, unit) <==>
      forall p | p in Prerequisites(t, task) && p !in Members(t.groups, unit) ::
        Confirmed(t, p, Prerequisites(t, task)[p])
  {
    var members, needed := Members(t.groups, unit), Prerequisites(t, task);
    forall p | p in needed && p !in members
      ensures p in WaitsFor(t, task) <==> !Confirmed(t, p, needed[p])
    {
      assert !needed[p].Captured?;
    }
  }

  /** Whatever changes a queue: grouping, choosing and withdrawing times, and tasks and publications moving on. */
  datatype QueueStep =
    | Group(id: UnitId, work: set<TaskId>, at: int)
    | Choose(unit: UnitId, package: Package, seed: bv64, requested: Option<int>, now: int)
    | Withdraw(unit: UnitId)
    | Move(tasks: map<TaskId, TaskStatus>, available: set<TaskId>)

  ghost function Step(t: Tables, step: QueueStep): Tables {
    match step
    case Group(id, work, at) => CreateUnit(t, id, work, at).0
    case Choose(unit, package, seed, requested, now) => ScheduleAt(t, unit, package, seed, requested, now).0
    case Withdraw(unit) => Invalidate(t, unit).0
    case Move(tasks, available) => t.(tasks := tasks, available := available)
  }

  ghost function After(t: Tables, run: seq<QueueStep>): Tables {
    if run == [] then t else Step(After(t, run[..|run| - 1]), run[|run| - 1])
  }

  ghost predicate Tidy(t: Tables) {
    GroupsClosed(t) && forall task | task in t.groups :: t.groups[task] in t.units
  }

  lemma StepKeepsTidy(t: Tables, step: QueueStep)
    requires Tidy(t)
    ensures Tidy(Step(t, step))
  {
    hide GroupsClosed, CreateUnit, ScheduleAt, Invalidate;
    match step {
      case Group(id, work, at) => GroupingKeepsClosed(t, id, work, at);
      case Choose(unit, package, seed, requested, now) =>
        RecordingLeavesGroups(t, unit, package, seed, requested, now);
        SameGroupingStaysClosed(t, Step(t, step));
      case Withdraw(unit) =>
        WithdrawingLeavesGroups(t, unit);
        SameGroupingStaysClosed(t, Step(t, step));
      case Move(tasks, available) => SameGroupingStaysClosed(t, Step(t, step));
    }
  }

  /** In every run from an empty grouping, every unit holds the captured prerequisites of its tasks. */
  lemma {:induction false} UnitsStayClosed(t: Tables, run: seq<QueueStep>)
    requires t.groups == map[]
    ensures Tidy(After(t, run))
    decreases |run|
  {
    hide Step;
    if run != [] {
      UnitsStayClosed(t, run[..|run| - 1]);
      StepKeepsTidy(After(t, run[..|run| - 1]), run[|run| - 1]);
    }
  }

  /**
   * Whenever a time is recorded, in any run, every prerequisite of the unit's tasks is in the unit itself or
   * already published where the task needs it.
   */
  lemma RecordedAfterItsPrerequisites(start: Tables, run: seq<QueueStep>, slot: Slot, task: TaskId, p: TaskId)
    requires start.groups == map[]
    requires var t := After(start, run);
             && Persist(t, slot).0.slots != t.slots
             && task in Members(t.groups, slot.unit) && p in Prerequisites(t, task)
    ensures var t := After(start, run);
            p in Members(t.groups, slot.unit) || Confirmed(t, p, Prerequisites(t, task)[p])
  {
    hide Persist, WaitsFor, Confirmed, After;
    var t := After(start, run);
    UnitsStayClosed(start, run);
    RecordedExactly(t, slot);
    OnlyPublicationIsWaitedFor(t, slot.unit, task);
  }
}
