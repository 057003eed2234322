/** Validation of a feature plan, and the task order a validated plan has. */
module FeaturePlans {
  import opened Wrappers
  import opened TaskGraphs
  import opened TaskGraphLaws

  const PLAN_SCHEMA_VERSION := 1

  datatype AcceptanceCheck = AcceptanceCheck(id: string, description: string)

  datatype PlanTask = PlanTask(
    id: TaskId, name: string, dependencies: map<TaskId, TargetMilestone>, checks: seq<AcceptanceCheck>)

  datatype PlanPhase = PlanPhase(id: string, name: string, tasks: seq<PlanTask>)

  datatype FeaturePlan = FeaturePlan(schemaVersion: nat, goal: string, phases: seq<PlanPhase>)

  datatype Kind = Goal | PhaseKey | PhaseName | TaskName | CheckKey | CheckDescription

  datatype PlanError =
    | UnsupportedSchema(received: nat)
    | NoPhases
    | NoTasks
    | EmptyPhase(phase: string)
    | DuplicatePhase(phase: string)
    | NoAcceptanceChecks(task: TaskId)
    | DuplicateAcceptanceCheck(task: TaskId, check: string)
    | InvalidKey(kind: Kind, value: string)
    | EmptyText(kind: Kind)
    | TextTooLong(kind: Kind, maximum: nat)
    | InvalidTask(task: TaskId)
    | InvalidGraph(error: GraphError)

  /** The characters Unicode calls white space. */
  predicate IsWhitespace(c: char) {
    var n := c as int;
    || 9 <= n <= 13 || n == 0x20 || n == 0x85 || n == 0xA0 || n == 0x1680 || 0x2000 <= n <= 0x200A
    || n == 0x2028 || n == 0x2029 || n == 0x202F || n == 0x205F || n == 0x3000
  }

  predicate Blank(s: string) {
    forall c | c in s :: IsWhitespace(c)
  }

  function Utf8Width(c: char): nat {
    var n := c as int;
    if n < 0x80 then 1 else if n < 0x800 then 2 else if n < 0x10000 then 3 else 4
  }

  /** Lengths are counted in the bytes of the UTF-8 encoding. */
  function Utf8Length(s: string): nat {
    if s == [] then 0 else Utf8Width(s[0]) + Utf8Length(s[1..])
  }

  predicate LowerOrDigit(c: char) {
    'a' <= c <= 'z' || '0' <= c <= '9'
  }

  predicate IsKey(s: string) {
    && 0 < Utf8Length(s) <= 64 && s != []
    && (forall c | c in s :: LowerOrDigit(c) || c == '_' || c == '-')
    && LowerOrDigit(s[0])
  }

  predicate IsText(s: string, maximum: nat) {
    !Blank(s) && Utf8Length(s) <= maximum
  }

  function VetKey(kind: Kind, value: string): Outcome<PlanError> {
    if IsKey(value) then Pass else Fail(InvalidKey(kind, value))
  }

  function VetText(kind: Kind, value: string, maximum: nat): Outcome<PlanError> {
    if Blank(value) then Fail(EmptyText(kind))
    else if Utf8Length(value) > maximum then Fail(TextTooLong(kind, maximum))
    else Pass
  }

  /** A definition needs a name that is not blank. */
  function Define(task: PlanTask): Result<TaskDefinition, PlanError> {
    if Blank(task.name) then Err(InvalidTask(task.id)) else Ok(Definition(task))
  }

  function Definition(task: PlanTask): TaskDefinition {
    TaskDefinition(task.id, task.name, task.dependencies)
  }

  function VetChecks(task: PlanTask, i: nat): Outcome<PlanError>
    requires i <= |task.checks|
    decreases |task.checks| - i
  {
    if i == |task.checks| then Pass
    else
      var check := task.checks[i];
      :- VetKey(CheckKey, check.id);
      :- VetText(CheckDescription, check.description, 1_000);
      if exists j | 0 <= j < i :: task.checks[j].id == check.id then Fail(DuplicateAcceptanceCheck(task.id, check.id))
      else VetChecks(task, i + 1)
  }

  function VetTasks(tasks: seq<PlanTask>, i: nat): Outcome<PlanError>
    requires i <= |tasks|
    decreases |tasks| - i
  {
    if i == |tasks| then Pass
    else
      var task := tasks[i];
      :- VetText(TaskName, task.name, 300);
      if task.checks == [] then Fail(NoAcceptanceChecks(task.id))
      else
        :- VetChecks(task, 0);
        if Define(task).Err? then Fail(InvalidTask(task.id)) else VetTasks(tasks, i + 1)
  }

  function VetPhases(phases: seq<PlanPhase>, i: nat): Outcome<PlanError>
    requires i <= |phases|
    decreases |phases| - i
  {
    if i == |phases| then Pass
    else
      var phase := phases[i];
      :- VetKey(PhaseKey, phase.id);
      :- VetText(PhaseName, phase.name, 200);
      if exists j | 0 <= j < i :: phases[j].id == phase.id then Fail(DuplicatePhase(phase.id))
      else if phase.tasks == [] then Fail(EmptyPhase(phase.id))
      else
        :- VetTasks(phase.tasks, 0);
        VetPhases(phases, i + 1)
  }

  function DefinitionsOf(tasks: seq<PlanTask>): seq<TaskDefinition> {
    seq(|tasks|, k requires 0 <= k < |tasks| => Definition(tasks[k]))
  }

  /** The tasks of all phases, in document order. */
  function Definitions(phases: seq<PlanPhase>): seq<TaskDefinition> {
    if phases == [] then [] else Definitions(phases[..|phases| - 1]) + DefinitionsOf(phases[|phases| - 1].tasks)
  }

  ghost function Vet(plan: FeaturePlan): Outcome<PlanError> {
    if plan.schemaVersion != PLAN_SCHEMA_VERSION then Fail(UnsupportedSchema(plan.schemaVersion))
    else
      :- VetText(Goal, plan.goal, 5_000);
      if plan.phases == [] then Fail(NoPhases)
      else
        :- VetPhases(plan.phases, 0);
        if Definitions(plan.phases) == [] then Fail(NoTasks)
        else
          match GraphOfAll(Definitions(plan.phases))
          case Err(error) => Fail(InvalidGraph(error))
          case Ok(_) => Pass
  }

  method ValidateChecks(task: PlanTask) returns (r: Outcome<PlanError>)
    ensures r == VetChecks(task, 0)
  {
    var ids: set<string> := {};
    for i := 0 to |task.checks|
      invariant VetChecks(task, i) == VetChecks(task, 0)
      invariant forall id :: id in ids <==> exists j | 0 <= j < i :: task.checks[j].id == id
    {
      var check := task.checks[i];
      :- VetKey(CheckKey, check.id);
      :- VetText(CheckDescription, check.description, 1_000);
      if check.id in ids {
        return Fail(DuplicateAcceptanceCheck(task.id, check.id));
      }
      ids := ids + {check.id};
    }
    return Pass;
  }

  method ValidateTasks(tasks: seq<PlanTask>, before: seq<TaskDefinition>)
    returns (r: Outcome<PlanError>, definitions: seq<TaskDefinition>)
    ensures r == VetTasks(tasks, 0)
    ensures r.Pass? ==> definitions == before + DefinitionsOf(tasks)
  {
    definitions := before;
    for i := 0 to |tasks|
      invariant VetTasks(tasks, i) == VetTasks(tasks, 0)
      invariant definitions == before + DefinitionsOf(tasks[..i])
    {
      var task := tasks[i];
      r := VetText(TaskName, task.name, 300);
      if r.Fail? {
        return;
      }
      if task.checks == [] {
        return Fail(NoAcceptanceChecks(task.id)), definitions;
      }
      r := ValidateChecks(task);
      if r.Fail? {
        return;
      }
      var defined := Define(task);
      if defined.Err? {
        return Fail(InvalidTask(task.id)), definitions;
      }
      definitions := definitions + [defined.value];
      assert DefinitionsOf(tasks[..i + 1]) == DefinitionsOf(tasks[..i]) + [Definition(task)];
    }
    assert tasks[..|tasks|] == tasks;
    r := Pass;
  }

  method Validate(plan: FeaturePlan) returns (r: Outcome<PlanError>)
    ensures r == Vet(plan)
  {
    hide DefinitionsOf, VetTasks, GraphOfAll;
    if plan.schemaVersion != PLAN_SCHEMA_VERSION {
      return Fail(UnsupportedSchema(plan.schemaVersion));
    }
    :- VetText(Goal, plan.goal, 5_000);
    if plan.phases == [] {
      return Fail(NoPhases);
    }
    var phases := plan.phases;
    var ids: set<string> := {};
    var definitions: seq<TaskDefinition> := [];
    for i := 0 to |phases|
      invariant VetPhases(phases, i) == VetPhases(phases, 0)
      invariant definitions == Definitions(phases[..i])
      invariant forall id :: id in ids <==> exists j | 0 <= j < i :: phases[j].id == id
    {
      var phase := phases[i];
      :- VetKey(PhaseKey, phase.id);
      :- VetText(PhaseName, phase.name, 200);
      if phase.id in ids {
        return Fail(DuplicatePhase(phase.id));
      }
      ids := ids + {phase.id};
      if phase.tasks == [] {
        return Fail(EmptyPhase(phase.id));
      }
      var tasks;
      tasks, definitions := ValidateTasks(phase.tasks, definitions);
      :- tasks;
      assert phases[..i + 1][..i] == phases[..i];
    }
    assert phases[..|phases|] == phases;
    if definitions == [] {
      return Fail(NoTasks);
    }
    var graph := NewGraph(definitions);
    return match graph case Err(error) => Fail(InvalidGraph(error)) case Ok(_) => Pass;
  }

  lemma {:induction false} VettedTasksAreNamed(tasks: seq<PlanTask>, i: nat)
    requires i <= |tasks| && VetTasks(tasks, i).Pass?
    ensures forall k | i <= k < |tasks| :: Define(tasks[k]).Ok?
    decreases |tasks| - i
  {
    if i < |tasks| {
      VettedTasksAreNamed(tasks, i + 1);
    }
  }

  lemma {:induction false} VettedPhasesAreNamed(phases: seq<PlanPhase>, i: nat, p: nat, k: nat)
    requires i <= p < |phases| && VetPhases(phases, i).Pass? && k < |phases[p].tasks|
    ensures Define(phases[p].tasks[k]).Ok?
    decreases p - i
  {
    if i < p {
      VettedPhasesAreNamed(phases, i + 1, p, k);
    } else {
      VettedTasksAreNamed(phases[p].tasks, 0);
    }
  }

  /** The order of a validated plan. Neither definition nor graph can fail once validation has passed. */
  method TaskOrder(plan: FeaturePlan) returns (r: Result<seq<TaskId>, PlanError>)
    ensures Vet(plan).Fail? ==> r == Err(Vet(plan).error)
    ensures Vet(plan).Pass? ==> r.Ok? && IsSchedule(Needs(ById(Definitions(plan.phases))), r.value)
    ensures Vet(plan).Pass? ==> r.value == Order(Needs(ById(Definitions(plan.phases))))
  {
    var valid := Validate(plan);
    if valid.Fail? {
      return Err(valid.error);
    }
    var phases, definitions: seq<TaskDefinition> := plan.phases, [];
    for p := 0 to |phases|
      invariant definitions == Definitions(phases[..p])
    {
      var tasks := phases[p].tasks;
      for k := 0 to |tasks|
        invariant definitions == Definitions(phases[..p]) + DefinitionsOf(tasks[..k])
      {
        VettedPhasesAreNamed(phases, 0, p, k);
        var defined := Define(tasks[k]);
        if defined.Err? {
          assert false;
        }
        definitions := definitions + [defined.value];
        assert DefinitionsOf(tasks[..k + 1]) == DefinitionsOf(tasks[..k]) + [Definition(tasks[k])];
      }
      assert tasks[..|tasks|] == tasks;
      assert phases[..p + 1][..p] == phases[..p];
    }
    assert phases[..|phases|] == phases;
    var graph := NewGraph(definitions);
    AcceptedExactly(ById(definitions));
    if graph.Err? {
      assert false;
    }
    return Ok(graph.value.order);
  }

  ghost predicate GoodChecks(checks: seq<AcceptanceCheck>) {
    && (forall c | c in checks :: IsKey(c.id) && IsText(c.description, 1_000))
    && forall j, k | 0 <= j < k < |checks| :: checks[j].id != checks[k].id
  }

  ghost predicate GoodTask(task: PlanTask) {
    IsText(task.name, 300) && task.checks != [] && GoodChecks(task.checks)
  }

  ghost predicate GoodPhase(phase: PlanPhase) {
    && IsKey(phase.id) && IsText(phase.name, 200) && phase.tasks != []
    && forall t | t in phase.tasks :: GoodTask(t)
  }

  ghost predicate DistinctPhases(phases: seq<PlanPhase>) {
    forall j, k | 0 <= j < k < |phases| :: phases[j].id != phases[k].id
  }

  lemma {:induction false} GoodChecksFrom(task: PlanTask, i: nat)
    requires i <= |task.checks|
    ensures VetChecks(task, i).Pass? <==>
      && (forall k | i <= k < |task.checks| :: IsKey(task.checks[k].id) && IsText(task.checks[k].description, 1_000))
      && forall j, k | 0 <= j < k < |task.checks| && i <= k :: task.checks[j].id != task.checks[k].id
    decreases |task.checks| - i
  {
    if i < |task.checks| {
      GoodChecksFrom(task, i + 1);
    }
  }

  lemma {:induction false} GoodTasksFrom(tasks: seq<PlanTask>, i: nat)
    requires i <= |tasks|
    ensures VetTasks(tasks, i).Pass? <==> forall k | i <= k < |tasks| :: GoodTask(tasks[k])
    decreases |tasks| - i
  {
    if i < |tasks| {
      GoodChecksFrom(tasks[i], 0);
      GoodTasksFrom(tasks, i + 1);
    }
  }

  lemma {:induction false} GoodPhasesFrom(phases: seq<PlanPhase>, i: nat)
    requires i <= |phases|
    ensures VetPhases(phases, i).Pass? <==>
      && (forall k | i <= k < |phases| :: GoodPhase(phases[k]))
      && forall j, k | 0 <= j < k < |phases| && i <= k :: phases[j].id != phases[k].id
    decreases |phases| - i
  {
    if i < |phases| {
      GoodTasksFrom(phases[i].tasks, 0);
      GoodPhasesFrom(phases, i + 1);
    }
  }

  /** What a plan must be, said without the order in which it is checked. */
  ghost predicate GoodPlan(plan: FeaturePlan) {
    && plan.schemaVersion == 1 && IsText(plan.goal, 5_000)
    && plan.phases != [] && (forall p | p in plan.phases :: GoodPhase(p)) && DistinctPhases(plan.phases)
    && Distinct(Definitions(plan.phases))
    && var deps := Needs(ById(Definitions(plan.phases)));
       Closed(deps) && !exists w :: Cycle(deps, w)
  }

  lemma GoodPhasesAreVetted(phases: seq<PlanPhase>)
    ensures VetPhases(phases, 0).Pass? <==> (forall p | p in phases :: GoodPhase(p)) && DistinctPhases(phases)
  {
    GoodPhasesFrom(phases, 0);
  }

  /** Validation passes exactly the good plans. */
  lemma ValidatesExactly(plan: FeaturePlan)
    ensures Vet(plan).Pass? <==> GoodPlan(plan)
  {
    hide GoodPhase, DistinctPhases, VetPhases, Closed, Needs, GraphOf, Definitions, Blank, Utf8Length;
    var definitions := Definitions(plan.phases);
    GoodPhasesAreVetted(plan.phases);
    NoRepeatExactly(definitions, 0);
    AcceptedExactly(ById(definitions));
    if plan.phases != [] && VetPhases(plan.phases, 0).Pass? {
      SomeTask(plan.phases);
    }
  }

  lemma SomeTask(phases: seq<PlanPhase>)
    requires phases != [] && VetPhases(phases, 0).Pass?
    ensures Definitions(phases) != []
  {
    GoodPhasesFrom(phases, 0);
    assert GoodPhase(phases[|phases| - 1]);
  }

  lemma {:induction false} TasksNeverUndefinable(tasks: seq<PlanTask>, i: nat)
    requires i <= |tasks| && VetTasks(tasks, i).Fail?
    ensures !VetTasks(tasks, i).error.InvalidTask? && !VetTasks(tasks, i).error.NoTasks?
    decreases |tasks| - i
  {
    ChecksFailOnlyAsChecks(tasks[i], 0);
    if VetTasks(tasks, i) == VetTasks(tasks, i + 1) {
      TasksNeverUndefinable(tasks, i + 1);
    }
  }

  lemma {:induction false} ChecksFailOnlyAsChecks(task: PlanTask, i: nat)
    requires i <= |task.checks|
    ensures VetChecks(task, i).Fail? ==> !VetChecks(task, i).error.InvalidTask? && !VetChecks(task, i).error.NoTasks?
    decreases |task.checks| - i
  {
    if i < |task.checks| {
      ChecksFailOnlyAsChecks(task, i + 1);
    }
  }

  lemma {:induction false} PhasesNeverUndefinable(phases: seq<PlanPhase>, i: nat)
    requires i <= |phases| && VetPhases(phases, i).Fail?
    ensures !VetPhases(phases, i).error.InvalidTask? && !VetPhases(phases, i).error.NoTasks?
    decreases |phases| - i
  {
    if VetTasks(phases[i].tasks, 0).Fail? {
      TasksNeverUndefinable(phases[i].tasks, 0);
    } else if VetPhases(phases, i) == VetPhases(phases, i + 1) {
      PhasesNeverUndefinable(phases, i + 1);
    }
  }

  /** Two of the declared errors are never reported: earlier checks always catch their causes. */
  lemma TwoErrorsAreUnreachable(plan: FeaturePlan)
    requires Vet(plan).Fail?
    ensures !Vet(plan).error.InvalidTask? && !Vet(plan).error.NoTasks?
  {
    hide VetPhases, GraphOfAll, Definitions;
    if plan.phases != [] {
      if VetPhases(plan.phases, 0).Fail? {
        PhasesNeverUndefinable(plan.phases, 0);
      } else {
        SomeTask(plan.phases);
      }
    }
  }
}
