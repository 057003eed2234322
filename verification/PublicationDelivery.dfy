/** When the tasks of work that landed on the target are published, and what recovery can do about it alone. */
module PublicationDelivery {
  import opened Wrappers
  import opened TaskLifecycle
  import opened RepositoryPolicies
  import opened Publications
  import opened PublicationSafety
  import opened PublicationLaws
  import opened PublicationTasks
  import opened PublicationRecovery
  import opened PublicationOutcomes

  /** The run publishes the task for an attempt other than this one, or sees it merged. */
  ghost predicate CompletedOtherwise(w: World, run: seq<Step>, id: AttemptId, task: TaskId) {
    exists k | 0 <= k < |run| :: CompletesOtherwise(Runs(w, run[..k]), run[k], id, task)
  }

  ghost predicate CompletesOtherwise(w: World, step: Step, id: AttemptId, task: TaskId) {
    Merges(w, step, task) || exists j :: j != id && Marks(w, step, j, task)
  }

  lemma {:induction false} PrefixCompletes(w: World, run: seq<Step>, step: Step, id: AttemptId, task: TaskId)
    ensures CompletedOtherwise(w, run + [step], id, task) <==>
      CompletedOtherwise(w, run, id, task) || CompletesOtherwise(Runs(w, run), step, id, task)
  {
    hide CompletesOtherwise, Runs;
    var all := run + [step];
    assert all[..|run|] == run && all[|run|] == step;
    assert forall k | 0 <= k < |run| :: all[..k] == run[..k] && all[k] == run[k];
    if k :| 0 <= k < |run| && CompletesOtherwise(Runs(w, run[..k]), run[k], id, task) {
      assert CompletesOtherwise(Runs(w, all[..k]), all[k], id, task);
    }
    if CompletesOtherwise(Runs(w, run), step, id, task) {
      assert CompletesOtherwise(Runs(w, all[..|run|]), all[|run|], id, task);
    }
  }

  /**
   * A task that a dormant attempt left unpublished, whether or not the attempt itself is published on the
   * target, is published in a run exactly when another attempt marks it in that run, or it is seen merged.
   */
  lemma {:induction false} UndeliveredUntilAnother(w: World, run: seq<Step>, id: AttemptId, task: TaskId)
    requires Dormant(w, id) && !TaskPublished(w, task)
    ensures TaskPublished(Runs(w, run), task) <==> CompletedOtherwise(w, run, id, task)
    decreases |run|
  {
    hide Take, Marks, Merges, TaskPublished;
    if run != [] {
      var init, step := run[..|run| - 1], run[|run| - 1];
      assert run == init + [step];
      UndeliveredUntilAnother(w, init, id, task);
      PrefixCompletes(w, init, step, id, task);
      PublishedExactly(Runs(w, init), step, task);
      DormantForever(w, init, id);
      DormantMarksNothing(Runs(w, init), step, id, task);
    }
  }

  lemma DormantMarksNothing(w: World, step: Step, id: AttemptId, task: TaskId)
    requires Dormant(w, id)
    ensures !Marks(w, step, id, task)
  {
  }

  // --------------------------------------------------- recovery on its own

  /** Nobody opens an attempt, sends, writes or changes the policy: only recovery and crashes. */
  predicate OnlyRecovery(run: seq<Step>) {
    forall k | 0 <= k < |run| :: run[k].StartRecovery? || run[k].Go? || run[k].Crash?
  }

  /** Its push was pending and its candidate is at the head of its branch. */
  predicate Landed(w: World, id: AttemptId) {
    && id in w.attempts && w.attempts[id].AwaitsResolution() && w.attempts[id].candidate.Some?
    && w.Head(w.attempts[id].branch) == w.attempts[id].candidate
  }

  predicate LandedOnTarget(w: World, id: AttemptId) {
    Landed(w, id) && w.attempts[id].branch == w.policy.target
  }

  /** A landed push to the target carries the task, and none before it in the package is blocked, ended or missing. */
  ghost predicate TaskInReach(w: World, task: TaskId) {
    exists id :: LandedOnTarget(w, id) && InReach(w.tasks, w.attempts[id].package.tasks, task)
  }

  /** The marking of a landed attempt's tasks, with those before `rest` already behind it. */
  ghost predicate MarkingLanded(w: World, id: AttemptId, rest: seq<TaskId>) {
    LandedOnTarget(w, id) &&
    exists k | 0 <= k <= |w.attempts[id].package.tasks| ::
      && rest == w.attempts[id].package.tasks[k..]
      && forall j | 0 <= j < k :: OnPath(w.tasks, w.attempts[id].package.tasks[j])
  }

  /** What recovery alone can have made of an idle world. */
  ghost predicate RecoveredFrom(w: World, v: World) {
    && v.remote == w.remote && v.policy == w.policy && AllFollow(w, v) && !v.activity.Working?
    && (forall id | id in v.attempts && v.attempts[id].AwaitsResolution() :: w.attempts[id].AwaitsResolution())
    && (forall id | IsPublished(v, id) :: IsPublished(w, id) || Landed(w, id))
    && (v.activity.Confirming? ==> Landed(w, v.activity.id))
    && (v.activity.AskingBranch? || v.activity.FetchingBranch? ==>
          v.activity.id in w.attempts && w.attempts[v.activity.id].AwaitsResolution())
  }

  /** And of its tasks. */
  ghost predicate TasksRecoveredFrom(w: World, v: World) {
    && (forall task | task in v.tasks :: task in w.tasks)
    && (forall task | OffPath(w, task) :: OffPath(v, task))
    && (forall task | TaskPublished(v, task) :: TaskPublished(w, task) || TaskInReach(w, task))
    && (v.activity.Confirming? && v.activity.stage.Mark? ==> MarkingLanded(w, v.activity.id, v.activity.stage.rest))
  }

  lemma FollowsOn(a: Attempt, b: Attempt, c: Attempt)
    requires Follows(a, b) && Follows(b, c) && (Coherent(a.state) ==> Coherent(b.state))
    ensures Follows(a, c)
  {
  }

  lemma RecoveryProceeds(w: World, v: World, exchange: Exchange)
    requires Inv(w) && Inv(v) && RecoveredFrom(w, v)
    ensures RecoveredFrom(w, Proceed(v, exchange))
  {
    var u := Proceed(v, exchange);
    ProceedFrame(v, exchange);
    OnlyWorkersWork(v, exchange);
    StillFollows(w, v, u);
    RecoveryStates(w, v, exchange);
    RecoveryActivity(w, v, exchange);
  }

  lemma StillFollows(w: World, v: World, u: World)
    requires Inv(w) && Inv(v) && AllFollow(w, v) && AllFollow(v, u)
    ensures AllFollow(w, u)
  {
    hide Follows;
    forall id | id in w.attempts ensures Follows(w.attempts[id], u.attempts[id]) {
      AttemptIsCoherent(w, id);
      AttemptIsCoherent(v, id);
      FollowsOn(w.attempts[id], v.attempts[id], u.attempts[id]);
    }
  }

  /** Confirming and failing are the only ways recovery changes a state. */
  lemma RecoveryStates(w: World, v: World, exchange: Exchange)
    requires Inv(v) && RecoveredFrom(w, v)
    ensures var u := Proceed(v, exchange);
            && (forall id | id in u.attempts && u.attempts[id].AwaitsResolution() ::
                  id in w.attempts && w.attempts[id].AwaitsResolution())
            && (forall id | IsPublished(u, id) :: IsPublished(w, id) || Landed(w, id))
  {
    hide Durable, ConfirmOn, FailOn, Landed, Follows;
    var u := Proceed(v, exchange);
    ProceedFrame(v, exchange);
    forall id | id in u.attempts
      ensures u.attempts[id].AwaitsResolution() ==> id in w.attempts && w.attempts[id].AwaitsResolution()
      ensures IsPublished(u, id) ==> IsPublished(w, id) || Landed(w, id)
    {
      if ActiveOn(v, id) {
        match v.activity {
          case Confirming(_, stage, recovering) => ConfirmingStates(v, id, stage, recovering);
          case Failing(_, reason) => FailingStates(v, id, reason);
          case Stopping(_, reason, stopping) => StopFrame(v, id, reason, stopping);
          case _ =>
        }
      } else {
        ProceedTouchesItsOwn(v, exchange, id);
      }
    }
  }

  lemma ConfirmingStates(w: World, id: AttemptId, stage: Stage, recovering: bool)
    requires id in w.attempts && StageSound(w.attempts[id].state, stage)
    requires w.attempts[id].Reached().MayHaveReachedRemote()
    ensures var v := ConfirmOn(w, id, stage, recovering);
            && id in v.attempts && (v.attempts[id].AwaitsResolution() ==> w.attempts[id].AwaitsResolution())
  {
  }

  lemma FailingStates(w: World, id: AttemptId, reason: StateReason)
    requires id in w.attempts
    ensures var v := FailOn(w, id, reason);
            && id in v.attempts
            && (v.attempts[id].AwaitsResolution() ==> w.attempts[id].AwaitsResolution())
            && (v.attempts[id].state.status.Published? ==> w.attempts[id].state.status.Published?)
  {
  }

  lemma RecoveryActivity(w: World, v: World, exchange: Exchange)
    requires Inv(w) && Inv(v) && RecoveredFrom(w, v)
    ensures var u := Proceed(v, exchange);
            && (u.activity.Confirming? ==> Landed(w, u.activity.id))
            && (u.activity.AskingBranch? || u.activity.FetchingBranch? ==>
                  u.activity.id in w.attempts && w.attempts[u.activity.id].AwaitsResolution())
  {
    hide Durable, ConfirmOn, FailOn, StopTask, AskBranch, FetchBranch, Landed;
    ProceedStaysOn(v, exchange);
    match v.activity
    case AskingBranch(id) => AskingGoesOn(v, id);
    case FetchingBranch(id) =>
      AttemptOf(w, id);
      assert Follows(w.attempts[id], v.attempts[id]);
      FetchingGoesOn(v, id);
      FoundIsLanded(w, v, id);
    case Confirming(id, stage, recovering) => ConfirmingGoesOn(v, id, stage, recovering);
    case Failing(id, reason) => FailingEnds(v, id, reason);
    case Stopping(id, reason, stopping) => StoppingGoesOn(v, id, reason, stopping);
    case _ =>
  }

  lemma AskingGoesOn(w: World, id: AttemptId)
    requires id in w.attempts
    ensures var next := AskBranch(w, id).activity; next.Idle? || next.Failing? || next == FetchingBranch(id)
  {
  }

  lemma FetchingGoesOn(w: World, id: AttemptId)
    requires id in w.attempts
    ensures var next := FetchBranch(w, id).activity;
            || next.Idle? || next.Failing?
            || (next.Confirming? && w.attempts[id].candidate.Some? && w.Head(w.attempts[id].branch) == w.attempts[id].candidate)
  {
  }

  lemma FoundIsLanded(w: World, v: World, id: AttemptId)
    requires id in w.attempts && AttemptSound(w, id) && w.attempts[id].AwaitsResolution()
    requires id in v.attempts && Follows(w.attempts[id], v.attempts[id]) && v.remote == w.remote
    ensures v.attempts[id].candidate.Some? && v.Head(v.attempts[id].branch) == v.attempts[id].candidate ==> Landed(w, id)
  {
  }

  lemma ConfirmingGoesOn(w: World, id: AttemptId, stage: Stage, recovering: bool)
    requires id in w.attempts
    ensures var next := ConfirmOn(w, id, stage, recovering).activity;
            next.Idle? || next.Confirming? || next.Failing?
  {
  }

  lemma FailingEnds(w: World, id: AttemptId, reason: StateReason)
    requires id in w.attempts
    ensures FailOn(w, id, reason).activity.Idle? || FailOn(w, id, reason).activity.Stopping?
  {
  }

  lemma StoppingGoesOn(w: World, id: AttemptId, reason: StateReason, rest: seq<TaskId>)
    ensures StopTask(w, id, reason, rest).activity.Idle? || StopTask(w, id, reason, rest).activity.Stopping?
  {
  }

  // ------------------------------------------------------ the tasks meanwhile

  lemma TasksProceed(w: World, v: World, exchange: Exchange)
    requires Inv(v) && RecoveredFrom(w, v) && TasksRecoveredFrom(w, v)
    ensures TasksRecoveredFrom(w, Proceed(v, exchange))
  {
    hide Proceed, RecoveredFrom, MarkingLanded, TaskInReach, OffPath, TaskPublished;
    var u := Proceed(v, exchange);
    forall task | task in u.tasks ensures task in w.tasks {
      PublishedExactly(v, Go(exchange), task);
    }
    forall task | OffPath(w, task) ensures OffPath(u, task) {
      PublishedExactly(v, Go(exchange), task);
    }
    forall task | TaskPublished(u, task) ensures TaskPublished(w, task) || TaskInReach(w, task) {
      PublishedExactly(v, Go(exchange), task);
      if id :| Marks(v, Go(exchange), id, task) {
        MarkedIsInReach(w, v, id, task);
      }
    }
    MarkingContinues(w, v, exchange);
  }

  /** What is about to be published comes from a landed push to the target, with nothing in its way. */
  lemma MarkedIsInReach(w: World, v: World, id: AttemptId, task: TaskId)
    requires TasksRecoveredFrom(w, v) && Marks(v, Go(Succeeds), id, task)
    ensures TaskInReach(w, task)
  {
    hide TaskInReach;
    var rest, tasks := v.activity.stage.rest, w.attempts[id].package.tasks;
    var k :| 0 <= k <= |tasks| && rest == tasks[k..] && forall j | 0 <= j < k :: OnPath(w.tasks, tasks[j]);
    assert tasks[k] == task;
    NotOffPath(w, v, task);
    assert InReach(w.tasks, tasks, task);
    InReachOfLanded(w, id, task);
  }

  lemma InReachOfLanded(w: World, id: AttemptId, task: TaskId)
    requires LandedOnTarget(w, id) && InReach(w.tasks, w.attempts[id].package.tasks, task)
    ensures TaskInReach(w, task)
  {
  }

  /** A task on the path now was on it from the start. */
  lemma NotOffPath(w: World, v: World, task: TaskId)
    requires (task in v.tasks ==> task in w.tasks) && (OffPath(w, task) ==> OffPath(v, task)) && OnPath(v.tasks, task)
    ensures OnPath(w.tasks, task)
  {
  }

  lemma MarkingContinues(w: World, v: World, exchange: Exchange)
    requires Inv(v) && RecoveredFrom(w, v) && TasksRecoveredFrom(w, v)
    ensures var u := Proceed(v, exchange);
            u.activity.Confirming? && u.activity.stage.Mark? ==> MarkingLanded(w, u.activity.id, u.activity.stage.rest)
  {
    hide Durable, ConfirmOn, WorkOn, FailOn, StopTask, AskBranch, FetchBranch, TaskInReach, MarkingLanded, Landed;
    var u := Proceed(v, exchange);
    if u.activity.Confirming? && u.activity.stage.Mark? {
      match v.activity {
        case Confirming(id, stage, recovering) =>
          assert u == ConfirmOn(v, id, stage, recovering);
          MarkComesFrom(v, id, stage, recovering);
          if stage.Settle? {
            assert Follows(w.attempts[id], v.attempts[id]);
            MarkingStarts(w, id);
          } else if u.activity.stage.rest != stage.rest {
            MarkingStep(w, v, id, stage.rest);
          }
        case Failing(id, reason) => FailingEnds(v, id, reason);
        case Stopping(id, reason, stopping) => StoppingGoesOn(v, id, reason, stopping);
        case AskingBranch(id) => LookingMarksNothing(v, id);
        case FetchingBranch(id) => LookingMarksNothing(v, id);
        case _ =>
      }
    }
  }

  lemma LookingMarksNothing(w: World, id: AttemptId)
    requires id in w.attempts
    ensures !(AskBranch(w, id).activity.Confirming? && AskBranch(w, id).activity.stage.Mark?)
    ensures !(FetchBranch(w, id).activity.Confirming? && FetchBranch(w, id).activity.stage.Mark?)
  {
  }

  /** Marking begins with the whole package once a publication on the target is settled, and then only shrinks. */
  lemma MarkComesFrom(w: World, id: AttemptId, stage: Stage, recovering: bool)
    requires id in w.attempts
    requires ConfirmOn(w, id, stage, recovering).activity.Confirming? && ConfirmOn(w, id, stage, recovering).activity.stage.Mark?
    ensures var next := ConfirmOn(w, id, stage, recovering).activity;
            && next.id == id
            && (stage.Settle? || stage.Mark?)
            && (stage.Settle? ==> w.attempts[id].branch == w.policy.target && next.stage.rest == w.attempts[id].package.tasks)
            && (stage.Mark? ==>
                  || next.stage.rest == stage.rest
                  || (stage.rest != [] && OnPath(w.tasks, stage.rest[0]) && next.stage.rest == stage.rest[1..]))
  {
  }

  lemma MarkingStarts(w: World, id: AttemptId)
    requires LandedOnTarget(w, id)
    ensures MarkingLanded(w, id, w.attempts[id].package.tasks)
  {
    var tasks := w.attempts[id].package.tasks;
    assert tasks == tasks[0..];
  }

  lemma MarkingStep(w: World, v: World, id: AttemptId, rest: seq<TaskId>)
    requires MarkingLanded(w, id, rest) && rest != [] && OnPath(v.tasks, rest[0])
    requires (forall task | task in v.tasks :: task in w.tasks) && forall task | OffPath(w, task) :: OffPath(v, task)
    ensures MarkingLanded(w, id, rest[1..])
  {
    var tasks := w.attempts[id].package.tasks;
    var k :| 0 <= k <= |tasks| && rest == tasks[k..] && forall j | 0 <= j < k :: OnPath(w.tasks, tasks[j]);
    NotOffPath(w, v, rest[0]);
    assert rest[1..] == tasks[k + 1..] && tasks[k] == rest[0];
  }

  lemma {:induction false} OnlyRecoveryRecovers(w: World, run: seq<Step>)
    requires Inv(w) && w.activity.Idle? && OnlyRecovery(run)
    ensures RecoveredFrom(w, Runs(w, run)) && TasksRecoveredFrom(w, Runs(w, run))
    decreases |run|
  {
    hide Inv, Proceed, Landed, TaskInReach, MarkingLanded, TaskPublished, OffPath;
    if run == [] {
      StartsAsIs(w);
    } else {
      var init, step := run[..|run| - 1], run[|run| - 1];
      OnlyRecoveryRecovers(w, init);
      RunKeepsInv(w, init);
      if step.Go? {
        RecoveryProceeds(w, Runs(w, init), step.exchange);
        TasksProceed(w, Runs(w, init), step.exchange);
      } else {
        EnteringChangesNoTask(w, Runs(w, init), Take(Runs(w, init), step));
      }
    }
  }

  lemma EnteringChangesNoTask(w: World, v: World, u: World)
    requires TasksRecoveredFrom(w, v) && u.tasks == v.tasks
    requires u.activity.Confirming? ==> u.activity == v.activity
    ensures TasksRecoveredFrom(w, u)
  {
    hide TaskInReach, MarkingLanded;
    forall task ensures TaskPublished(u, task) <==> TaskPublished(v, task) {
    }
    forall task ensures OffPath(u, task) <==> OffPath(v, task) {
    }
  }

  lemma StartsAsIs(w: World)
    requires w.activity.Idle?
    ensures RecoveredFrom(w, w) && TasksRecoveredFrom(w, w)
  {
    FollowsItself(w);
  }

  lemma RecoveringIsOnlyRecovery(run: seq<Step>, id: AttemptId)
    requires Recovers(run, id)
    ensures OnlyRecovery(run)
  {
    forall k | 0 <= k < |run| ensures run[k].StartRecovery? || run[k].Go? {
      if k > 0 {
        assert run[1..][k - 1] == run[k];
      }
    }
  }

  /**
   * Left to itself, recovery publishes an idle attempt exactly when its push was pending and its candidate is
   * at the head of its branch.
   */
  lemma RecoveryPublishesExactly(w: World, id: AttemptId)
    requires Inv(w) && w.activity.Idle? && id in w.attempts && !IsPublished(w, id)
    ensures (exists run :: OnlyRecovery(run) && IsPublished(Runs(w, run), id)) <==> Landed(w, id)
  {
    hide Inv, Runs, Take, TasksRecoveredFrom;
    if Landed(w, id) {
      var run := RecoveryDiscovers(w, id);
      RecoveringIsOnlyRecovery(run, id);
      assert OnlyRecovery(run) && IsPublished(Runs(w, run), id);
    }
    if run :| OnlyRecovery(run) && IsPublished(Runs(w, run), id) {
      OnlyRecoveryRecovers(w, run);
    }
  }

  /**
   * Left to itself, recovery publishes a task exactly when the target's head is the pending candidate of an
   * attempt whose package carries the task, and neither it nor one before it is blocked, ended or missing.
   */
  lemma RecoveryDeliversExactly(w: World, task: TaskId)
    requires Inv(w) && w.activity.Idle? && !TaskPublished(w, task)
    ensures (exists run :: OnlyRecovery(run) && TaskPublished(Runs(w, run), task)) <==> TaskInReach(w, task)
  {
    hide Inv, Runs, Take, RecoveredFrom, Marked, InReach;
    if TaskInReach(w, task) {
      var id :| LandedOnTarget(w, id) && InReach(w.tasks, w.attempts[id].package.tasks, task);
      var run := RecoveryDiscovers(w, id);
      RecoveringIsOnlyRecovery(run, id);
      MarkedExactly(w.tasks, w.attempts[id].package.tasks, task);
      InReachExists(w.tasks, w.attempts[id].package.tasks, task);
      assert OnlyRecovery(run) && TaskPublished(Runs(w, run), task);
    }
    if run :| OnlyRecovery(run) && TaskPublished(Runs(w, run), task) {
      OnlyRecoveryRecovers(w, run);
    }
  }

  lemma InReachExists(tasks: map<TaskId, State>, rest: seq<TaskId>, task: TaskId)
    requires InReach(tasks, rest, task)
    ensures task in tasks
  {
    var k :| 0 <= k < |rest| && rest[k] == task && forall j | 0 <= j <= k :: OnPath(tasks, rest[j]);
    assert OnPath(tasks, rest[k]);
  }

  /** A package whose push landed on the target is delivered by recovery alone exactly when no task of it is off the path. */
  lemma RecoveryCompletesExactly(w: World, id: AttemptId)
    requires Inv(w) && w.activity.Idle? && LandedOnTarget(w, id)
    ensures (exists run :: OnlyRecovery(run) && Delivered(Runs(w, run), w.attempts[id].package))
            <==> forall task | task in w.attempts[id].package.tasks :: OnPath(w.tasks, task)
  {
    hide Inv, Runs, Take, RecoveredFrom, Marked, TaskInReach;
    var package := w.attempts[id].package;
    if forall task | task in package.tasks :: OnPath(w.tasks, task) {
      var run := RecoveryDiscovers(w, id);
      RecoveringIsOnlyRecovery(run, id);
      forall task | task in package.tasks ensures TaskPublished(Runs(w, run), task) {
        var k :| 0 <= k < |package.tasks| && package.tasks[k] == task;
        assert InReach(w.tasks, package.tasks, task);
        MarkedExactly(w.tasks, package.tasks, task);
      }
      assert OnlyRecovery(run) && Delivered(Runs(w, run), package);
    }
    if run :| OnlyRecovery(run) && Delivered(Runs(w, run), package) {
      OnlyRecoveryRecovers(w, run);
      forall task | task in package.tasks ensures OnPath(w.tasks, task) {
        PublishedIsOnPath(Runs(w, run), task);
        NotOffPath(w, Runs(w, run), task);
      }
    }
  }

  lemma PublishedIsOnPath(w: World, task: TaskId)
    requires TaskPublished(w, task)
    ensures OnPath(w.tasks, task)
  {
  }
}
