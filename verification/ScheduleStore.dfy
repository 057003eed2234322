/** One repository's durable queue: its units, the state of their tasks, and their live release times. */
module ScheduleStores {
  import opened Wrappers
  import opened FiniteSets
  import opened TaskGraphs
  import opened ReleaseUnits
  import opened TaskLifecycle
  import opened SchedulePolicies
  import opened SlotGenerators
  import opened RequestedSlots
  import opened SelectionSoundness
  import opened SelectionCompleteness

  datatype UnitId = UnitId(bits: nat)

  datatype Package = Package(id: nat, revision: nat)

  datatype Slot = Slot(unit: UnitId, package: Package, eligibleAt: int, selectedAt: int, onRequest: bool) {
    /** The order slots are listed in: by time, then by unit. */
    predicate Before(other: Slot) {
      selectedAt < other.selectedAt || (selectedAt == other.selectedAt && unit.bits < other.unit.bits)
    }
  }

  datatype ScheduleError =
    | InvalidTimes
    | MissingUnit(unit: UnitId)
    | MissingPackage(package: Package)
    | MissingTask(task: TaskId)
    | MissingPolicy
    | InvalidOverride(error: PolicyError)
    | RequestedTimeRefused(error: PolicyError)
    | SelectionRefused(error: PolicyError)
    | NoSelectableSlot
    | Panicked
    | TasksDiffer
    | NotQueued(task: TaskId)
    | Waits(task: TaskId, prerequisite: TaskId)
    | AlreadyScheduled(package: Package)
    | Owned(task: TaskId)
    | UnknownTask(task: TaskId)
    | NoWork(package: Package)
    | UnitRefused
    | Regrouped(task: TaskId)
    | UnitIdTaken(unit: UnitId)
  {
    /** The store's conflicts, as opposed to rows that are missing or malformed. */
    predicate IsConflict() {
      TasksDiffer? || NotQueued? || Waits? || AlreadyScheduled? || Owned? || UnitRefused? || Regrouped? || UnitIdTaken?
    }
  }

  type Milestones = map<TaskId, map<TaskId, TargetMilestone>>

  /**
   * `groups` gives each grouped task its one unit. `prerequisites` gives a task those it waits for, each with
   * the milestone it must have reached. `available` are the tasks with an attempt published to the
   * development branch, if there is one.
   */
  datatype Tables = Tables(
    policy: Option<SchedulePolicy>, over: Option<PolicyOverride>, packages: map<Package, set<TaskId>>,
    prerequisites: Milestones, available: set<TaskId>,
    slots: seq<Slot>, units: set<UnitId>, groups: map<TaskId, UnitId>, tasks: map<TaskId, TaskStatus>)

  function SelectedTimes(slots: seq<Slot>): (r: seq<int>)
    ensures |r| == |slots|
    ensures forall i | 0 <= i < |slots| :: r[i] == slots[i].selectedAt
  {
    seq(|slots|, i requires 0 <= i < |slots| => slots[i].selectedAt)
  }

  function Members(groups: map<TaskId, UnitId>, unit: UnitId): set<TaskId> {
    set task | task in groups && groups[task] == unit
  }

  function Find(slots: seq<Slot>, unit: UnitId): Option<Slot> {
    if slots == [] then None
    else if slots[0].unit == unit then Some(slots[0])
    else Find(slots[1..], unit)
  }

  function InsertRow(slot: Slot, slots: seq<Slot>): seq<Slot> {
    if slots == [] || slot.Before(slots[0]) then [slot] + slots else [slots[0]] + InsertRow(slot, slots[1..])
  }

  function RemoveRow(slots: seq<Slot>, unit: UnitId): seq<Slot> {
    if slots == [] then []
    else if slots[0].unit == unit then slots[1..]
    else [slots[0]] + RemoveRow(slots[1..], unit)
  }

  function Effective(t: Tables): Result<SchedulePolicy, ScheduleError> {
    if t.policy.None? then Err(MissingPolicy)
    else if t.over.None? then Ok(t.policy.value)
    else
      match WithOverride(t.policy.value, t.over.value)
      case Ok(policy) => Ok(policy)
      case Err(error) => Err(InvalidOverride(error))
  }

  function Captures(needed: map<TaskId, TargetMilestone>): set<TaskId> {
    set p | p in needed && needed[p].Captured?
  }

  /** The prerequisites that travel with a task: those that capture alone satisfies. */
  function Coupling(prerequisites: Milestones): Dependencies {
    map task | task in prerequisites && Captures(prerequisites[task]) != {} :: Captures(prerequisites[task])
  }

  function Prerequisites(t: Tables, task: TaskId): map<TaskId, TargetMilestone> {
    if task in t.prerequisites then t.prerequisites[task] else map[]
  }

  /** Work on the target has passed through being available, so publication meets every milestone. */
  predicate MilestoneMet(t: Tables, prerequisite: TaskId, milestone: TargetMilestone)
    requires prerequisite in t.tasks
  {
    match milestone
    case Captured => !t.tasks[prerequisite].Planned? && !t.tasks[prerequisite].Building?
    case TargetPublished => t.tasks[prerequisite].Published?
    case DevelopmentAvailable => t.tasks[prerequisite].Published? || prerequisite in t.available
  }

  /** The prerequisites that are missing or have not reached the milestone the task needs. */
  function WaitsFor(t: Tables, task: TaskId): set<TaskId> {
    set p | p in Prerequisites(t, task) && (p !in t.tasks || !MilestoneMet(t, p, Prerequisites(t, task)[p]))
  }

  /** The tasks that keep a unit from being scheduled: not queued, or waiting for work outside the unit. */
  function Ineligible(t: Tables, unit: set<TaskId>): set<TaskId> {
    set task | task in unit && (task !in t.tasks || !t.tasks[task].Queued? || !(WaitsFor(t, task) <= unit))
  }

  /** What is wrong with a task that keeps its unit from being scheduled. */
  ghost function Obstacle(t: Tables, unit: set<TaskId>, task: TaskId): ScheduleError
    requires task in Ineligible(t, unit)
  {
    if task !in t.tasks then MissingTask(task)
    else if !t.tasks[task].Queued? then NotQueued(task)
    else
      assert WaitsFor(t, task) - unit != {} by {
        var p := Outsider(WaitsFor(t, task), unit);
        assert p in WaitsFor(t, task) - unit;
      }
      var prerequisite := First(WaitsFor(t, task) - unit);
      if prerequisite !in t.tasks then MissingTask(prerequisite) else Waits(task, prerequisite)
  }

  /** The tasks that keep a unit's time from being withdrawn: an attempt has moved them on. */
  function Busy(t: Tables, unit: set<TaskId>): set<TaskId> {
    set task | task in unit && (task !in t.tasks
      || !(t.tasks[task].Scheduled? || t.tasks[task].IsTerminal() || t.tasks[task].Blocked?))
  }

  function Scheduling(tasks: map<TaskId, TaskStatus>, unit: set<TaskId>): map<TaskId, TaskStatus> {
    map task | task in tasks :: if task in unit then Scheduled else tasks[task]
  }

  function Withdrawing(tasks: map<TaskId, TaskStatus>, unit: set<TaskId>): map<TaskId, TaskStatus> {
    map task | task in tasks :: if task in unit && tasks[task].Scheduled? then Queued else tasks[task]
  }

  predicate PackageHasSlot(slots: seq<Slot>, package: Package) {
    exists k | 0 <= k < |slots| :: slots[k].package == package
  }

  /** Why a slot cannot be recorded; checked in this order. */
  ghost function PersistRefusal(t: Tables, slot: Slot): Option<ScheduleError> {
    if slot.unit !in t.units then Some(MissingUnit(slot.unit))
    else if slot.package !in t.packages then Some(MissingPackage(slot.package))
    else if t.packages[slot.package] != Members(t.groups, slot.unit) then Some(TasksDiffer)
    else if Ineligible(t, Members(t.groups, slot.unit)) != {} then
      Some(Obstacle(t, Members(t.groups, slot.unit), First(Ineligible(t, Members(t.groups, slot.unit)))))
    else if PackageHasSlot(t.slots, slot.package) then Some(AlreadyScheduled(slot.package))
    else None
  }

  /** Records a selected time and moves the unit's tasks from queued to scheduled. */
  ghost function Persist(t: Tables, slot: Slot): (Tables, Result<Slot, ScheduleError>) {
    if slot.eligibleAt < 0 || slot.selectedAt < slot.eligibleAt then (t, Err(InvalidTimes))
    else if Find(t.slots, slot.unit).Some? then (t, Ok(Find(t.slots, slot.unit).value))
    else
      match PersistRefusal(t, slot)
      case Some(error) => (t, Err(error))
      case None =>
        (t.(slots := InsertRow(slot, t.slots), tasks := Scheduling(t.tasks, Members(t.groups, slot.unit))), Ok(slot))
  }

  /** Withdraws a unit's time and returns its scheduled tasks to the queue. */
  ghost function Invalidate(t: Tables, unit: UnitId): (Tables, Result<Option<Slot>, ScheduleError>) {
    var slot := Find(t.slots, unit);
    if slot.None? then (t, Ok(None))
    else if unit !in t.units then (t, Err(MissingUnit(unit)))
    else if Busy(t, Members(t.groups, unit)) != {} then
      var task := First(Busy(t, Members(t.groups, unit)));
      (t, Err(if task !in t.tasks then MissingTask(task) else Owned(task)))
    else
      (t.(slots := RemoveRow(t.slots, unit), tasks := Withdrawing(t.tasks, Members(t.groups, unit))), Ok(slot))
  }

  /** The tasks a grouping may not contain: those the plan does not have. */
  function Unplanned(t: Tables, tasks: set<TaskId>): set<TaskId> {
    set task | task in tasks && task !in t.tasks
  }

  function Grouped(t: Tables, tasks: set<TaskId>): set<TaskId> {
    set task | task in tasks && task in t.groups
  }

  function Grouping(groups: map<TaskId, UnitId>, tasks: set<TaskId>, unit: UnitId): map<TaskId, UnitId> {
    map task | task in groups.Keys + tasks :: if task in tasks then unit else groups[task]
  }

  /** Groups tasks into a unit; the same grouping again is the unit it already is. */
  ghost function CreateUnit(t: Tables, id: UnitId, tasks: set<TaskId>, now: int): (Tables, Result<UnitId, ScheduleError>) {
    if now < 0 then (t, Err(InvalidTimes))
    else if Unplanned(t, tasks) != {} then (t, Err(UnknownTask(First(Unplanned(t, tasks)))))
    else if NewUnit(id.bits, tasks, Coupling(t.prerequisites)).Err? then (t, Err(UnitRefused))
    else if Grouped(t, tasks) != {} then
      var task := First(Grouped(t, tasks));
      (t, if Members(t.groups, t.groups[task]) == tasks then Ok(t.groups[task]) else Err(Regrouped(task)))
    else if id in t.units then (t, Err(UnitIdTaken(id)))
    else (t.(units := t.units + {id}, groups := Grouping(t.groups, tasks, id)), Ok(id))
  }

  function Draw(policy: SchedulePolicy, seed: bv64, now: int, existing: seq<int>): Selection {
    SelectSlots(XORSHIFT, policy, now, 1, existing, Seed(seed)).selection
  }

  function ChooseTime(policy: SchedulePolicy, seed: bv64, requested: Option<int>, now: int, existing: seq<int>)
    : Result<PlannedSlot, ScheduleError>
  {
    match requested
    case Some(instant) =>
      (match ValidateRequestedSlot(policy, instant, now, existing)
       case Ok(planned) => Ok(planned)
       case Err(error) => Err(RequestedTimeRefused(error)))
    case None =>
      (match Draw(policy, seed, now, existing)
       case Selected(slots) => if slots == [] then Err(NoSelectableSlot) else Ok(slots[|slots| - 1])
       case Refused(error) => Err(SelectionRefused(error))
       case Aborted => Err(Panicked))
  }

  ghost function ScheduleAt(t: Tables, unit: UnitId, package: Package, seed: bv64, requested: Option<int>, now: int)
    : (Tables, Result<Slot, ScheduleError>)
  {
    if Find(t.slots, unit).Some? then (t, Ok(Find(t.slots, unit).value))
    else if unit !in t.units then (t, Err(MissingUnit(unit)))
    else
      match Effective(t)
      case Err(error) => (t, Err(error))
      case Ok(policy) =>
        match ChooseTime(policy, seed, requested, now, SelectedTimes(t.slots))
        case Err(error) => (t, Err(error))
        case Ok(planned) => Persist(t, Slot(unit, package, now, planned.selectedAt, false))
  }

  class QueueStore {
    const policy: Option<SchedulePolicy>
    const over: Option<PolicyOverride>
    const packages: map<Package, set<TaskId>>
    const prerequisites: Milestones
    const available: set<TaskId>
    var slots: seq<Slot>
    var units: set<UnitId>
    var groups: map<TaskId, UnitId>
    var tasks: map<TaskId, TaskStatus>

    constructor (t: Tables)
      ensures Value() == t
    {
      policy, over, packages := t.policy, t.over, t.packages;
      prerequisites, available := t.prerequisites, t.available;
      slots, units, groups, tasks := t.slots, t.units, t.groups, t.tasks;
    }

    function Value(): Tables
      reads this
    {
      Tables(policy, over, packages, prerequisites, available, slots, units, groups, tasks)
    }

    /** The first prerequisite outside the unit, in order, that the task still waits for. */
    method CheckPrerequisites(task: TaskId, unit: set<TaskId>) returns (refusal: Option<ScheduleError>)
      requires task in unit && task in tasks && tasks[task].Queued?
      ensures refusal == if WaitsFor(Value(), task) <= unit then None else Some(Obstacle(Value(), unit, task))
    {
      ghost var waiting := WaitsFor(Value(), task) - unit;
      var needed := Prerequisites(Value(), task);
      var rest := needed.Keys;
      while rest != {}
        invariant rest <= needed.Keys && waiting <= rest
        decreases |rest|
      {
        var prerequisite;
        prerequisite, rest := PopFirst(rest);
        if prerequisite in unit {
          continue;
        }
        if prerequisite !in tasks || !MilestoneMet(Value(), prerequisite, needed[prerequisite]) {
          assert IsFirst(prerequisite, waiting);
          FirstIsUnique(prerequisite, First(waiting), waiting);
          return Some(if prerequisite !in tasks then MissingTask(prerequisite) else Waits(task, prerequisite));
        }
      }
      return None;
    }

    /** What is wrong with the first task, in order, that keeps the unit from being scheduled. */
    method CheckEligible(unit: set<TaskId>) returns (refusal: Option<ScheduleError>)
      ensures refusal == if Ineligible(Value(), unit) == {} then None
                         else Some(Obstacle(Value(), unit, First(Ineligible(Value(), unit))))
    {
      var rest := unit;
      while rest != {}
        invariant rest <= unit
        invariant Ineligible(Value(), unit) <= rest
        decreases |rest|
      {
        var task;
        task, rest := PopFirst(rest);
        if task in Ineligible(Value(), unit) {
          assert IsFirst(task, Ineligible(Value(), unit));
          FirstIsUnique(task, First(Ineligible(Value(), unit)), Ineligible(Value(), unit));
        }
        if task !in tasks {
          return Some(MissingTask(task));
        }
        if !tasks[task].Queued? {
          return Some(NotQueued(task));
        }
        var waiting := CheckPrerequisites(task, unit);
        if waiting.Some? {
          return waiting;
        }
        assert task !in Ineligible(Value(), unit);
      }
      return None;
    }

    method MoveTasks(unit: set<TaskId>)
      requires unit <= tasks.Keys
      modifies `tasks
      ensures tasks == Scheduling(old(tasks), unit)
    {
      var rest := unit;
      while rest != {}
        invariant rest <= unit
        invariant tasks.Keys == old(tasks).Keys
        invariant forall task | task in tasks ::
          tasks[task] == if task in unit && task !in rest then Scheduled else old(tasks)[task]
        decreases |rest|
      {
        var task;
        task, rest := PopFirst(rest);
        tasks := tasks[task := Scheduled];
      }
      assert tasks == Scheduling(old(tasks), unit);
    }

    method PersistScheduleSlot(slot: Slot) returns (r: Result<Slot, ScheduleError>)
      modifies this
      ensures (Value(), r) == Persist(old(Value()), slot)
    {
      if slot.eligibleAt < 0 || slot.selectedAt < slot.eligibleAt {
        return Err(InvalidTimes);
      }
      var existing := Find(slots, slot.unit);
      if existing.Some? {
        return Ok(existing.value);
      }
      if slot.unit !in units {
        return Err(MissingUnit(slot.unit));
      }
      if slot.package !in packages {
        return Err(MissingPackage(slot.package));
      }
      var unit := Members(groups, slot.unit);
      if packages[slot.package] != unit {
        return Err(TasksDiffer);
      }
      var refusal := CheckEligible(unit);
      if refusal.Some? {
        return Err(refusal.value);
      }
      if PackageHasSlot(slots, slot.package) {
        return Err(AlreadyScheduled(slot.package));
      }
      EligibleExist(Value(), unit);
      slots := InsertRow(slot, slots);
      MoveTasks(unit);
      return Ok(slot);
    }

    method InvalidateScheduleSlot(unit: UnitId) returns (r: Result<Option<Slot>, ScheduleError>)
      modifies this
      ensures (Value(), r) == Invalidate(old(Value()), unit)
    {
      var slot := Find(slots, unit);
      if slot.None? {
        return Ok(None);
      }
      if unit !in units {
        return Err(MissingUnit(unit));
      }
      ghost var t := Value();
      var withdrawn: set<TaskId> := {};
      var members := Members(groups, unit);
      var rest := members;
      while rest != {}
        invariant rest <= members && Value() == t
        invariant Busy(t, members) <= rest
        invariant withdrawn == set task | task in members - rest && task in tasks && tasks[task].Scheduled?
        decreases |rest|
      {
        ghost var before := rest;
        var task;
        task, rest := PopFirst(rest);
        if task !in tasks || !(tasks[task].Scheduled? || tasks[task].IsTerminal() || tasks[task].Blocked?) {
          assert IsFirst(task, Busy(t, members));
          FirstIsUnique(task, First(Busy(t, members)), Busy(t, members));
          return Err(if task !in tasks then MissingTask(task) else Owned(task));
        }
        assert task !in Busy(t, members);
        if tasks[task].Scheduled? {
          withdrawn := withdrawn + {task};
        }
      }
      slots := RemoveRow(slots, unit);
      tasks := map task | task in tasks :: if task in withdrawn then Queued else tasks[task];
      assert tasks == Withdrawing(t.tasks, Members(t.groups, unit));
      return Ok(slot);
    }

    method CapturedPrerequisites(task: TaskId) returns (captured: set<TaskId>)
      requires task in prerequisites
      ensures captured == Captures(prerequisites[task])
    {
      captured := {};
      var needed := prerequisites[task];
      var rest := needed.Keys;
      while rest != {}
        invariant rest <= needed.Keys
        invariant captured == set p | p in needed && p !in rest && needed[p].Captured?
        decreases |rest|
      {
        var prerequisite;
        prerequisite, rest := PopFirst(rest);
        if needed[prerequisite].Captured? {
          captured := captured + {prerequisite};
        }
      }
    }

    /** The prerequisites that must travel with each task of the plan. */
    method CouplingForPlan() returns (coupling: Dependencies)
      ensures coupling == Coupling(prerequisites)
    {
      coupling := map[];
      var rest := prerequisites.Keys;
      while rest != {}
        invariant rest <= prerequisites.Keys
        invariant coupling == map task | task in prerequisites && task !in rest && Captures(prerequisites[task]) != {} ::
                                Captures(prerequisites[task])
        decreases |rest|
      {
        var task;
        task, rest := PopFirst(rest);
        var captured := CapturedPrerequisites(task);
        if captured != {} {
          coupling := coupling[task := captured];
        }
      }
    }

    method CreateReleaseUnit(id: UnitId, work: set<TaskId>, now: int) returns (r: Result<UnitId, ScheduleError>)
      modifies this
      ensures (Value(), r) == CreateUnit(old(Value()), id, work, now)
    {
      hide NewUnit;
      if now < 0 {
        return Err(InvalidTimes);
      }
      var unplanned: set<TaskId> := set task | task in work && task !in tasks;
      if unplanned != {} {
        var task, _ := PopFirst(unplanned);
        return Err(UnknownTask(task));
      }
      NewUnitRefuses(Value(), id, work);
      var coupling := CouplingForPlan();
      if work == {} || Lacking(work, coupling) != {} {
        return Err(UnitRefused);
      }
      var grouped: set<TaskId> := set task | task in work && task in groups;
      if grouped != {} {
        var task, _ := PopFirst(grouped);
        return if Members(groups, groups[task]) == work then Ok(groups[task]) else Err(Regrouped(task));
      }
      if id in units {
        return Err(UnitIdTaken(id));
      }
      units := units + {id};
      groups := Grouping(groups, work, id);
      return Ok(id);
    }

    /** Selects and records one unit's release time; a time already recorded is returned unchanged. */
    method SelectTime(unit: UnitId, package: Package, seed: bv64, requested: Option<int>, now: int)
      returns (r: Result<Slot, ScheduleError>)
      modifies this
      ensures (Value(), r) == ScheduleAt(old(Value()), unit, package, seed, requested, now)
    {
      hide Persist, Effective, SelectSlots;
      var held := Find(slots, unit);
      if held.Some? {
        return Ok(held.value);
      }
      if unit !in units {
        return Err(MissingUnit(unit));
      }
      var effective :- Effective(Value());
      var existing := SelectedTimes(slots);
      var at: int;
      if requested.Some? {
        var planned := ValidateRequestedSlot(effective, requested.value, now, existing);
        if planned.Err? {
          return Err(RequestedTimeRefused(planned.error));
        }
        at := planned.value.selectedAt;
      } else {
        var generator := new SlotGenerator.Seeded(seed);
        var selection := generator.Select(effective, now, 1, existing);
        if selection.Refused? {
          return Err(SelectionRefused(selection.error));
        } else if selection.Aborted? {
          return Err(Panicked);
        } else if selection.slots == [] {
          return Err(NoSelectableSlot);
        }
        at := selection.slots[|selection.slots| - 1].selectedAt;
      }
      r := PersistScheduleSlot(Slot(unit, package, now, at, false));
    }
  }

  lemma NewUnitRefuses(t: Tables, id: UnitId, tasks: set<TaskId>)
    ensures NewUnit(id.bits, tasks, Coupling(t.prerequisites)).Err? <==> tasks == {} || Lacking(tasks, Coupling(t.prerequisites)) != {}
  {
  }

  lemma EligibleExist(t: Tables, unit: set<TaskId>)
    requires Ineligible(t, unit) == {}
    ensures unit <= t.tasks.Keys
  {
    forall task | task in unit ensures task in t.tasks {
      assert task !in Ineligible(t, unit);
    }
  }
}
