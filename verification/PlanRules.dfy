/** The rules of a plan in plain terms, and that every refusal is true of the plan it refuses. */
module PlanRules {
  import opened Wrappers
  import opened TaskGraphs
  import opened TaskGraphLaws
  import opened FeaturePlans

  /** a to z, or 0 to 9. */
  predicate SmallOrDigit(c: char) {
    97 <= c as int <= 122 || 48 <= c as int <= 57
  }

  lemma {:induction false} OneByteEach(s: string)
    requires forall k | 0 <= k < |s| :: (s[k] as int) < 128
    ensures Utf8Length(s) == |s|
  {
    if s != [] {
      OneByteEach(s[1..]);
    }
  }

  /** A key is one to sixty-four small letters, digits, underscores and hyphens, the first a letter or a digit. */
  lemma KeysExactly(s: string)
    ensures IsKey(s) <==>
      && 1 <= |s| <= 64 && SmallOrDigit(s[0])
      && forall k | 0 <= k < |s| :: SmallOrDigit(s[k]) || s[k] as int == 95 || s[k] as int == 45
  {
    if forall k | 0 <= k < |s| :: SmallOrDigit(s[k]) || s[k] as int == 95 || s[k] as int == 45 {
      OneByteEach(s);
      hide Utf8Length;
      forall c | c in s ensures LowerOrDigit(c) || c == '_' || c == '-' {
        var k :| 0 <= k < |s| && s[k] == c;
      }
    } else {
      hide Utf8Length;
      var k :| 0 <= k < |s| && !(SmallOrDigit(s[k]) || s[k] as int == 95 || s[k] as int == 45);
      assert s[k] in s;
      assert s[k] != '_' && s[k] != '-' && !LowerOrDigit(s[k]);
    }
  }

  /** The white space of the Unicode standard: twenty-five characters. */
  const WHITE_SPACE: seq<int> :=
    [9, 10, 11, 12, 13, 32, 133, 160, 5760, 8192, 8193, 8194, 8195, 8196, 8197, 8198, 8199, 8200, 8201, 8202,
     8232, 8233, 8239, 8287, 12288]

  /** A text is blank exactly when it consists of those. */
  lemma BlankExactly(s: string)
    ensures Blank(s) <==> forall k | 0 <= k < |s| :: s[k] as int in WHITE_SPACE
    ensures |WHITE_SPACE| == 25
  {
    hide IsWhitespace;
    if Blank(s) {
      forall k | 0 <= k < |s| ensures s[k] as int in WHITE_SPACE {
        assert s[k] in s;
        WhitespaceIsListed(s[k]);
      }
    }
    if forall k | 0 <= k < |s| :: s[k] as int in WHITE_SPACE {
      forall c | c in s ensures IsWhitespace(c) {
        var k :| 0 <= k < |s| && s[k] == c;
        WhitespaceIsListed(c);
      }
    }
  }

  lemma WhitespaceIsListed(c: char)
    ensures IsWhitespace(c) <==> c as int in WHITE_SPACE
  {
  }

  // ------------------------------------------------------- the order of a plan

  /** The definition is of a task of some phase, at this place. */
  predicate DefinedAt(phases: seq<PlanPhase>, p: int, k: int, t: TaskDefinition) {
    0 <= p < |phases| && 0 <= k < |phases[p].tasks| && IsDefined(phases[p].tasks[k], t)
  }

  lemma {:induction false} DefinitionsAreTheTasks(phases: seq<PlanPhase>, t: TaskDefinition)
    ensures t in Definitions(phases) <==> exists p, k :: DefinedAt(phases, p, k, t)
  {
    hide IsDefined, DefinitionsOf;
    if phases != [] {
      var n := |phases| - 1;
      var init := phases[..n];
      DefinitionsAreTheTasks(init, t);
      LastPhaseIsDefined(phases[n].tasks, t);
      assert forall p, k | p < n :: DefinedAt(init, p, k, t) <==> DefinedAt(phases, p, k, t);
      if k :| 0 <= k < |phases[n].tasks| && IsDefined(phases[n].tasks[k], t) {
        assert DefinedAt(phases, n, k, t);
      }
      if p, k :| DefinedAt(init, p, k, t) {
        assert DefinedAt(phases, p, k, t);
      }
    }
  }

  /** The definition says of the task what the plan says. */
  predicate IsDefined(task: PlanTask, t: TaskDefinition) {
    t.id == task.id && t.name == task.name && t.dependencies == task.dependencies
  }

  lemma LastPhaseIsDefined(tasks: seq<PlanTask>, t: TaskDefinition)
    ensures t in DefinitionsOf(tasks) <==> exists k | 0 <= k < |tasks| :: IsDefined(tasks[k], t)
  {
    if k :| 0 <= k < |tasks| && IsDefined(tasks[k], t) {
      assert DefinitionsOf(tasks)[k] == t;
    }
    if t in DefinitionsOf(tasks) {
      var k :| 0 <= k < |tasks| && DefinitionsOf(tasks)[k] == t;
      assert IsDefined(tasks[k], t);
    }
  }

  /** The task is somewhere in the order, and everything it depends on is before it. */
  ghost predicate InItsPlace(order: seq<TaskId>, task: PlanTask) {
    exists i | 0 <= i < |order| :: order[i] == task.id && forall d | d in task.dependencies :: d in order[..i]
  }

  /** Some task of some phase has this identifier. */
  ghost predicate IsPlanned(phases: seq<PlanPhase>, id: TaskId) {
    exists p, k :: 0 <= p < |phases| && 0 <= k < |phases[p].tasks| && phases[p].tasks[k].id == id
  }

  /**
   * The order of a validated plan has every task of every phase, each once and after all that it depends on, and
   * nothing else.
   */
  lemma OrderServesThePlan(plan: FeaturePlan, order: seq<TaskId>)
    requires Vet(plan).Pass? && order == Order(Needs(ById(Definitions(plan.phases))))
    ensures forall p, k | 0 <= p < |plan.phases| && 0 <= k < |plan.phases[p].tasks| ::
      InItsPlace(order, plan.phases[p].tasks[k])
    ensures forall i | 0 <= i < |order| :: IsPlanned(plan.phases, order[i])
    ensures forall i, j | 0 <= i < j < |order| :: order[i] != order[j]
  {
    hide InItsPlace, IsPlanned, GoodPhase, DistinctPhases, IsDefined, Vet, Definitions, Order;
    var definitions := Definitions(plan.phases);
    var tasks := ById(definitions);
    ValidatesExactly(plan);
    PassedIsAGraph(plan);
    AcceptedExactly(tasks);
    forall p, k | 0 <= p < |plan.phases| && 0 <= k < |plan.phases[p].tasks|
      ensures InItsPlace(order, plan.phases[p].tasks[k])
    {
      TaskInItsPlace(plan, order, p, k);
    }
    forall i | 0 <= i < |order|
      ensures IsPlanned(plan.phases, order[i])
    {
      assert order[i] in Elements(order);
      OrderedIsPlanned(plan.phases, order[i]);
    }
  }

  lemma PassedIsAGraph(plan: FeaturePlan)
    requires Vet(plan).Pass?
    ensures GraphOf(ById(Definitions(plan.phases))).Ok? && Distinct(Definitions(plan.phases))
    ensures GraphOf(ById(Definitions(plan.phases))).value.order == Order(Needs(ById(Definitions(plan.phases))))
  {
    ValidatesExactly(plan);
    AcceptedExactly(ById(Definitions(plan.phases)));
    hide GoodPhase, DistinctPhases, Definitions, VetPhases;
  }

  lemma OrderedIsPlanned(phases: seq<PlanPhase>, id: TaskId)
    requires Distinct(Definitions(phases)) && id in ById(Definitions(phases))
    ensures IsPlanned(phases, id)
  {
    hide Definitions;
    ByIdKeys(Definitions(phases), id);
    ByIdHolds(Definitions(phases), ById(Definitions(phases))[id]);
    DefinitionsAreTheTasks(phases, ById(Definitions(phases))[id]);
  }

  lemma TaskInItsPlace(plan: FeaturePlan, order: seq<TaskId>, p: nat, k: nat)
    requires p < |plan.phases| && k < |plan.phases[p].tasks|
    requires var tasks := ById(Definitions(plan.phases));
             Distinct(Definitions(plan.phases)) && GraphOf(tasks).Ok? && GraphOf(tasks).value.order == order
    ensures InItsPlace(order, plan.phases[p].tasks[k])
  {
    hide Definitions, GraphOf, Order;
    var task, definitions := plan.phases[p].tasks[k], Definitions(plan.phases);
    var defined := TaskDefinition(task.id, task.name, task.dependencies);
    assert DefinedAt(plan.phases, p, k, defined);
    DefinitionsAreTheTasks(plan.phases, defined);
    ByIdHolds(definitions, defined);
    AcceptedExactly(ById(definitions));
    assert task.id in Elements(order);
    var i :| 0 <= i < |order| && order[i] == task.id;
    assert ById(definitions)[order[i]] == defined;
  }

  /** The check repeats the name of an earlier one. */
  ghost predicate RepeatsCheck(task: PlanTask, check: string) {
    exists j, k | 0 <= j < k < |task.checks| :: task.checks[j].id == check && task.checks[k].id == check
  }

  /** What an error says of a task's checks. */
  ghost predicate TrueOfChecks(task: PlanTask, error: PlanError) {
    match error
    case InvalidKey(CheckKey, value) => !IsKey(value) && exists c | c in task.checks :: c.id == value
    case EmptyText(CheckDescription) => exists c | c in task.checks :: Blank(c.description)
    case TextTooLong(CheckDescription, maximum) =>
      maximum == 1_000 && exists c | c in task.checks :: Utf8Length(c.description) > 1_000
    case DuplicateAcceptanceCheck(named, check) => named == task.id && RepeatsCheck(task, check)
    case _ => false
  }

  lemma {:induction false} ChecksFailTruly(task: PlanTask, i: nat)
    requires i <= |task.checks| && VetChecks(task, i).Fail?
    ensures TrueOfChecks(task, VetChecks(task, i).error)
    decreases |task.checks| - i
  {
    hide IsKey, Blank, Utf8Length;
    if VetChecks(task, i) == VetChecks(task, i + 1) {
      ChecksFailTruly(task, i + 1);
    } else {
      assert task.checks[i] in task.checks;
      var error := VetChecks(task, i).error;
      if error.DuplicateAcceptanceCheck? {
        assert RepeatsCheck(task, task.checks[i].id);
      }
    }
  }

  /** What an error says of one task. */
  ghost predicate TrueOfTask(task: PlanTask, error: PlanError) {
    match error
    case EmptyText(TaskName) => Blank(task.name)
    case TextTooLong(TaskName, maximum) => maximum == 300 && Utf8Length(task.name) > 300
    case NoAcceptanceChecks(named) => named == task.id && task.checks == []
    case _ => TrueOfChecks(task, error)
  }

  lemma {:induction false} TasksFailTruly(tasks: seq<PlanTask>, i: nat)
    requires i <= |tasks| && VetTasks(tasks, i).Fail?
    ensures exists task | task in tasks :: TrueOfTask(task, VetTasks(tasks, i).error)
    decreases |tasks| - i
  {
    hide Utf8Length, VetChecks, TrueOfChecks;
    var task := tasks[i];
    if VetText(TaskName, task.name, 300).Pass? && VetChecks(task, 0).Pass? && task.checks != [] {
      TasksFailTruly(tasks, i + 1);
    } else {
      assert task in tasks;
      if VetText(TaskName, task.name, 300).Pass? && task.checks != [] {
        ChecksFailTruly(task, 0);
        ChecksSayNothingElse(task, VetChecks(task, 0).error);
      }
      assert TrueOfTask(task, VetTasks(tasks, i).error);
    }
  }

  lemma ChecksSayNothingElse(task: PlanTask, error: PlanError)
    requires TrueOfChecks(task, error)
    ensures TrueOfTask(task, error)
  {
    hide IsKey, Blank, Utf8Length;
  }

  /** What an error says of one phase. */
  ghost predicate TrueOfPhase(phase: PlanPhase, error: PlanError) {
    match error
    case InvalidKey(PhaseKey, value) => value == phase.id && !IsKey(phase.id)
    case EmptyText(PhaseName) => Blank(phase.name)
    case TextTooLong(PhaseName, maximum) => maximum == 200 && Utf8Length(phase.name) > 200
    case EmptyPhase(named) => named == phase.id && phase.tasks == []
    case _ => exists task | task in phase.tasks :: TrueOfTask(task, error)
  }

  ghost predicate RepeatsPhase(phases: seq<PlanPhase>, id: string) {
    exists j, k | 0 <= j < k < |phases| :: phases[j].id == id && phases[k].id == id
  }

  /** What an error says of the phases together. */
  ghost predicate TrueOfPhases(phases: seq<PlanPhase>, error: PlanError) {
    if error.DuplicatePhase? then RepeatsPhase(phases, error.phase)
    else exists phase | phase in phases :: TrueOfPhase(phase, error)
  }

  lemma {:induction false} PhasesFailTruly(phases: seq<PlanPhase>, i: nat)
    requires i <= |phases| && VetPhases(phases, i).Fail?
    ensures TrueOfPhases(phases, VetPhases(phases, i).error)
    decreases |phases| - i
  {
    hide IsKey, Blank, Utf8Length, VetTasks, TrueOfTask;
    var phase := phases[i];
    var key, name := VetKey(PhaseKey, phase.id), VetText(PhaseName, phase.name, 200);
    if key.Pass? && name.Pass? {
      if exists j | 0 <= j < i :: phases[j].id == phase.id {
        assert RepeatsPhase(phases, phase.id);
      } else if phase.tasks != [] {
        if VetTasks(phase.tasks, 0).Fail? {
          TasksFailTruly(phase.tasks, 0);
          var error := VetTasks(phase.tasks, 0).error;
          var task :| task in phase.tasks && TrueOfTask(task, error);
          TasksSayNothingElse(phase, task, error);
          assert TrueOfPhase(phases[i], error);
        } else {
          PhasesFailTruly(phases, i + 1);
        }
      } else {
        assert TrueOfPhase(phases[i], EmptyPhase(phase.id));
      }
    } else {
      assert TrueOfPhase(phases[i], VetPhases(phases, i).error);
    }
  }

  lemma TasksSayNothingElse(phase: PlanPhase, task: PlanTask, error: PlanError)
    requires task in phase.tasks && TrueOfTask(task, error)
    ensures !error.DuplicatePhase? && TrueOfPhase(phase, error)
  {
    hide IsKey, Blank, Utf8Length, RepeatsCheck;
  }

  /** What an error says of the whole plan. */
  ghost predicate TrueOfPlan(plan: FeaturePlan, error: PlanError) {
    match error
    case UnsupportedSchema(received) => received == plan.schemaVersion && received != 1
    case EmptyText(Goal) => Blank(plan.goal)
    case TextTooLong(Goal, maximum) => maximum == 5_000 && Utf8Length(plan.goal) > 5_000
    case NoPhases => plan.phases == []
    case InvalidGraph(wrong) => GraphOfAll(Definitions(plan.phases)) == Err(wrong)
    case _ => TrueOfPhases(plan.phases, error)
  }

  /** Whatever a plan is refused for is true of it, and names what it is true of. */
  lemma RefusalsAreTrue(plan: FeaturePlan)
    requires Vet(plan).Fail?
    ensures TrueOfPlan(plan, Vet(plan).error)
  {
    hide IsKey, Utf8Length, VetPhases, TrueOfPhases, GraphOfAll, Definitions;
    TwoErrorsAreUnreachable(plan);
    if plan.schemaVersion == 1 && VetText(Goal, plan.goal, 5_000).Pass? && plan.phases != [] {
      if VetPhases(plan.phases, 0).Fail? {
        PhasesFailTruly(plan.phases, 0);
        PhasesSayNothingElse(plan, VetPhases(plan.phases, 0).error);
      }
    }
  }

  lemma PhasesSayNothingElse(plan: FeaturePlan, error: PlanError)
    requires TrueOfPhases(plan.phases, error)
    ensures TrueOfPlan(plan, error)
  {
    hide IsKey, Blank, Utf8Length, RepeatsCheck, RepeatsPhase;
  }
}
