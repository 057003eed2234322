/** Which branch receives work under a fixed policy, and when its tasks count as published. */
module PublicationTargets {
  import opened Wrappers
  import opened TaskLifecycle
  import opened RepositoryPolicies
  import opened Publications
  import opened PublicationSafety
  import opened PublicationLaws
  import opened PublicationGrounds
  import opened PublicationRecovery
  import opened PublicationTasks
  import opened PublicationOutcomes
  import opened PublicationDelivery

  /** Every attempt is opened by a maintenance pass. */
  predicate Unattended(run: seq<Step>) {
    forall k | 0 <= k < |run| :: run[k].Open? ==> run[k].maintenance
  }

  lemma OpenedAs(w: World, step: Step, id: AttemptId)
    requires id in Take(w, step).attempts && id !in w.attempts
    ensures step.Open? && step.id == id
    ensures var a := Take(w, step).attempts[id];
            && a.package == step.package
            && a.branch == Choose(w.policy, ReachedDevelopment(w, step.package)).branch
            && !(step.maintenance && Withheld(w.policy, ReachedDevelopment(w, step.package)))
  {
    hide Proceed, Choose, Withheld, ReachedDevelopment, BranchHeld;
    StepFrame(w, step);
  }

  ghost predicate TargetUntouched(w: World) {
    forall id | id in w.attempts :: w.attempts[id].branch != w.policy.target
  }

  lemma StepLeavesTarget(w: World, step: Step)
    requires w.policy.Sound() && w.policy.integration.PullRequest? && TargetUntouched(w)
    requires !step.SetPolicy? && (step.Open? ==> step.maintenance)
    ensures TargetUntouched(Take(w, step))
  {
    hide Take;
    StepFrame(w, step);
    var v := Take(w, step);
    forall id | id in v.attempts ensures v.attempts[id].branch != v.policy.target {
      if id !in w.attempts {
        OpenedAs(w, step, id);
        WithholdingProtectsTarget(w.policy, ReachedDevelopment(w, step.package));
      }
    }
  }

  lemma {:induction false} PolicyStays(w: World, run: seq<Step>)
    requires Fixed(run)
    ensures Runs(w, run).policy == w.policy
    decreases |run|
  {
    hide Take;
    if run != [] {
      PolicyStays(w, run[..|run| - 1]);
      StepFrame(Runs(w, run[..|run| - 1]), run[|run| - 1]);
    }
  }

  /** Under a pull-request policy, no sequence of maintenance passes opens an attempt on the target branch. */
  lemma {:induction false} PullRequestsProtectTarget(w: World, run: seq<Step>)
    requires Initial(w) && w.policy.integration.PullRequest? && Fixed(run) && Unattended(run)
    ensures TargetUntouched(Runs(w, run))
    decreases |run|
  {
    hide Take;
    if run != [] {
      PullRequestsProtectTarget(w, run[..|run| - 1]);
      PolicyStays(w, run[..|run| - 1]);
      StepLeavesTarget(Runs(w, run[..|run| - 1]), run[|run| - 1]);
    }
  }

  /** A release asked for directly does open one, exactly once the work has reached the development branch. */
  lemma DirectReleaseIgnoresPullRequests(w: World, id: AttemptId, package: Package)
    requires w.policy.Sound() && w.policy.integration.PullRequest? && w.activity.Idle? && id !in w.attempts
    ensures var v := Take(w, Open(id, package, false));
            (id in v.attempts && v.attempts[id].branch == w.policy.target)
            <==> ReachedDevelopment(w, package) && !BranchHeld(w, w.policy.target)
  {
    hide Choose, ReachedDevelopment, BranchHeld;
    WithholdingProtectsTarget(w.policy, ReachedDevelopment(w, package));
    SoundPullRequestIsImmediate(w.policy);
  }

  lemma SoundPullRequestIsImmediate(policy: RepositoryPolicy)
    requires policy.Sound() && policy.integration.PullRequest?
    ensures !policy.mode.ScheduledCreation?
  {
  }

  /** What is published somewhere stays published there. */
  lemma PublishedStays(w: World, step: Step, package: Package, branch: Branch)
    requires PublishedTo(w, package, branch)
    ensures PublishedTo(Take(w, step), package, branch)
  {
    hide Take;
    StepFrame(w, step);
    var id :| id in w.attempts
      && w.attempts[id].package == package && w.attempts[id].branch == branch && w.attempts[id].state.status.Published?;
    assert Follows(w.attempts[id], Take(w, step).attempts[id]);
  }

  /** Whatever is on its way to the target branch was published to the development branch before. */
  ghost predicate DevelopmentFirst(w: World) {
    forall id | id in w.attempts && w.attempts[id].branch == w.policy.target ::
      ReachedDevelopment(w, w.attempts[id].package)
  }

  lemma StepKeepsDevelopmentFirst(w: World, step: Step)
    requires w.policy.Sound() && w.policy.mode.ImmediateAvailability? && DevelopmentFirst(w) && !step.SetPolicy?
    ensures DevelopmentFirst(Take(w, step))
  {
    hide Take, PublishedTo;
    StepFrame(w, step);
    var v, dev := Take(w, step), w.policy.development.value;
    forall id | id in v.attempts && v.attempts[id].branch == v.policy.target
      ensures ReachedDevelopment(v, v.attempts[id].package)
    {
      if id in w.attempts {
        assert Follows(w.attempts[id], v.attempts[id]);
      } else {
        OpenedAs(w, step, id);
        WithholdingProtectsTarget(w.policy, ReachedDevelopment(w, step.package));
      }
      PublishedStays(w, step, v.attempts[id].package, dev);
    }
  }

  /** In immediate mode the target only ever receives work that reached the development branch first. */
  lemma {:induction false} TargetFollowsDevelopment(w: World, run: seq<Step>)
    requires Initial(w) && w.policy.mode.ImmediateAvailability? && Fixed(run)
    ensures DevelopmentFirst(Runs(w, run))
    decreases |run|
  {
    hide Take, ReachedDevelopment;
    if run != [] {
      TargetFollowsDevelopment(w, run[..|run| - 1]);
      PolicyStays(w, run[..|run| - 1]);
      StepKeepsDevelopmentFirst(Runs(w, run[..|run| - 1]), run[|run| - 1]);
    }
  }

  /** Some attempt published on the target carries the task. */
  ghost predicate CarriedToTarget(w: World, task: TaskId) {
    exists id :: IsPublished(w, id) && w.attempts[id].branch == w.policy.target && task in w.attempts[id].package.tasks
  }

  ghost predicate SeenMerged(w: World, run: seq<Step>, task: TaskId) {
    exists k | 0 <= k < |run| :: Merges(Runs(w, run[..k]), run[k], task)
  }

  /** What is being marked was published on the target. */
  ghost predicate MarkingOnTarget(w: World) {
    w.activity.Confirming? && w.activity.stage.Mark? ==>
      && IsPublished(w, w.activity.id) && w.attempts[w.activity.id].branch == w.policy.target
      && forall task | task in w.activity.stage.rest :: task in w.attempts[w.activity.id].package.tasks
  }

  lemma MarkingStaysOnTarget(w: World, step: Step)
    requires Inv(w) && MarkingOnTarget(w) && !step.SetPolicy?
    ensures MarkingOnTarget(Take(w, step))
  {
    hide Durable, Proceed, Choose, Withheld, BranchHeld, ChangeTask;
    if step.Go? {
      MarkingGoesOn(w, step.exchange);
    } else if step.Command? {
      CommandFrame(w, step.task, step.request);
    }
  }

  lemma MarkingGoesOn(w: World, exchange: Exchange)
    requires Inv(w) && MarkingOnTarget(w)
    ensures MarkingOnTarget(Proceed(w, exchange))
  {
    hide Durable, WorkOn, ConfirmOn, FailOn, StopTask, AskBranch, FetchBranch, DeferRetry;
    var v := Proceed(w, exchange);
    ProceedFrame(w, exchange);
    if v.activity.Confirming? && v.activity.stage.Mark? {
      match w.activity {
        case Confirming(id, stage, recovering) =>
          assert Follows(w.attempts[id], v.attempts[id]);
          MarkComesFrom(w, id, stage, recovering);
        case Failing(id, reason) => FailingEnds(w, id, reason);
        case Stopping(id, reason, rest) => StoppingGoesOn(w, id, reason, rest);
        case AskingBranch(id) => LookingMarksNothing(w, id);
        case FetchingBranch(id) => LookingMarksNothing(w, id);
        case Working(id, to, at) => WorkMarksNothing(w, id, to, at, if exchange.Defers? then exchange.until else 0);
        case _ =>
      }
    }
  }

  lemma WorkMarksNothing(w: World, id: AttemptId, to: Publication, at: Point, until: nat)
    requires id in w.attempts
    ensures var next := WorkOn(w, id, to, at).activity; !(next.Confirming? && next.stage.Mark?)
    ensures !DeferRetry(w, id, until).activity.Confirming?
  {
  }

  lemma CarriedStays(w: World, step: Step, task: TaskId)
    requires CarriedToTarget(w, task) && !step.SetPolicy?
    ensures CarriedToTarget(Take(w, step), task)
  {
    hide Take;
    StepFrame(w, step);
    var id :| IsPublished(w, id) && w.attempts[id].branch == w.policy.target && task in w.attempts[id].package.tasks;
    assert Follows(w.attempts[id], Take(w, step).attempts[id]);
    assert IsPublished(Take(w, step), id);
  }

  lemma MarkedIsCarried(w: World, id: AttemptId, task: TaskId)
    requires MarkingOnTarget(w) && Marks(w, Go(Succeeds), id, task)
    ensures CarriedToTarget(w, task)
  {
    assert task in w.activity.stage.rest;
  }

  lemma MergedOnwards(w: World, run: seq<Step>, step: Step, task: TaskId)
    requires SeenMerged(w, run, task) || Merges(Runs(w, run), step, task)
    ensures SeenMerged(w, run + [step], task)
  {
    hide Merges, Runs;
    var all := run + [step];
    assert all[..|run|] == run && all[|run|] == step;
    if k :| 0 <= k < |run| && Merges(Runs(w, run[..k]), run[k], task) {
      assert all[..k] == run[..k] && all[k] == run[k];
    }
  }

  /**
   * Under a fixed policy a task is published only if an attempt that carries it is published on the target
   * branch, or the work was seen merged: a publication to the development branch never completes it.
   */
  lemma {:induction false} DevelopmentNeverDelivers(w: World, run: seq<Step>)
    requires Initial(w) && Fixed(run)
    ensures MarkingOnTarget(Runs(w, run))
    ensures forall task | TaskPublished(Runs(w, run), task) ::
      CarriedToTarget(Runs(w, run), task) || SeenMerged(w, run, task)
    decreases |run|
  {
    hide Take, Inv, CarriedToTarget, SeenMerged, Merges, MarkingOnTarget;
    if run == [] {
      NothingMarkedYet(w);
    } else {
      var init, step := run[..|run| - 1], run[|run| - 1];
      var v := Runs(w, init);
      assert run == init + [step];
      DevelopmentNeverDelivers(w, init);
      RunKeeps(w, init);
      MarkingStaysOnTarget(v, step);
      forall task | TaskPublished(Take(v, step), task)
        ensures CarriedToTarget(Take(v, step), task) || SeenMerged(w, run, task)
      {
        PublishedExactly(v, step, task);
        if id :| Marks(v, step, id, task) {
          MarkedIsCarried(v, id, task);
        }
        if CarriedToTarget(v, task) {
          CarriedStays(v, step, task);
        } else {
          MergedOnwards(w, init, step, task);
        }
      }
    }
  }

  lemma NothingMarkedYet(w: World)
    requires Initial(w)
    ensures MarkingOnTarget(w) && forall task :: !TaskPublished(w, task)
  {
  }

  /**
   * Whether a release goes to the target depends on the mode, the development branch and who holds the
   * target; that the package is on the target already is no obstacle.
   */
  lemma OpensOnTargetExactly(w: World, id: AttemptId, package: Package, maintenance: bool)
    requires w.policy.Sound() && w.activity.Idle? && id !in w.attempts
    ensures var v := Take(w, Open(id, package, maintenance));
            (id in v.attempts && v.attempts[id].branch == w.policy.target) <==>
              && (w.policy.mode.ScheduledCreation? || ReachedDevelopment(w, package))
              && !(maintenance && Withheld(w.policy, ReachedDevelopment(w, package)))
              && !BranchHeld(w, w.policy.target)
  {
    hide Choose, ReachedDevelopment, BranchHeld, Withheld;
    WithholdingProtectsTarget(w.policy, ReachedDevelopment(w, package));
  }

  /** Published, or still able to be. */
  predicate Live(a: Attempt) {
    a.Holds() || a.state.status.Published?
  }

  /** No step revives an attempt that gave its branch up before its push. */
  lemma LiveStays(w: World, step: Step, id: AttemptId)
    requires Inv(w) && id in w.attempts && id in Take(w, step).attempts && Live(Take(w, step).attempts[id])
    ensures Live(w.attempts[id])
  {
    hide Durable, Take;
    AttemptOf(w, id);
    if !Live(w.attempts[id]) {
      BlockedStep(w, step, id);
      UnsentIsNotHeld(w, id);
    }
  }

  lemma UnsentIsNotHeld(w: World, id: AttemptId)
    requires Inv(w) && id in w.attempts && !w.attempts[id].Reached().MayHaveReachedRemote()
    ensures w.attempts[id].candidate.Some? ==> Holding(w.attempts[id].branch, w.attempts[id].candidate.value) !in w.held
  {
    AttemptOf(w, id);
    if w.attempts[id].candidate.Some? {
      NothingLeftYet(w, id);
    }
  }

  predicate OnDevelopment(w: World, id: AttemptId, package: Package) {
    && id in w.attempts && w.attempts[id].package == package
    && w.policy.development == Some(w.attempts[id].branch) && Live(w.attempts[id])
  }

  ghost predicate OnceOnDevelopment(w: World) {
    forall i, j, package | OnDevelopment(w, i, package) && OnDevelopment(w, j, package) :: i == j
  }

  lemma SoundPolicy(w: World)
    requires Inv(w)
    ensures w.policy.Sound()
  {
    PolicyIsSound(w);
  }

  lemma StepKeepsOnce(w: World, step: Step)
    requires Inv(w) && OnceOnDevelopment(w) && !step.SetPolicy?
    ensures OnceOnDevelopment(Take(w, step))
  {
    hide Inv, Take, Live;
    StepFrame(w, step);
    SoundPolicy(w);
    var v := Take(w, step);
    forall i, package | OnDevelopment(v, i, package) && i in w.attempts ensures OnDevelopment(w, i, package) {
      assert Follows(w.attempts[i], v.attempts[i]);
      LiveStays(w, step, i);
    }
    forall i, j, package | OnDevelopment(v, i, package) && OnDevelopment(v, j, package) ensures i == j {
      if i !in w.attempts {
        OpenedAs(w, step, i);
        if j in w.attempts {
          NewIsFirst(w, step, i, j, package);
        } else {
          OpenedAs(w, step, j);
        }
      } else if j !in w.attempts {
        OpenedAs(w, step, j);
        NewIsFirst(w, step, j, i, package);
      }
    }
  }

  /** An attempt is opened on the development branch only when no other of its package is live there. */
  lemma NewIsFirst(w: World, step: Step, id: AttemptId, other: AttemptId, package: Package)
    requires w.policy.Sound() && step.Open? && step.id == id && id !in w.attempts && id in Take(w, step).attempts
    requires step.package == package && OnDevelopment(w, other, package)
    ensures w.policy.development != Some(Take(w, step).attempts[id].branch)
  {
    if w.attempts[other].state.status.Published? {
      assert PublishedTo(w, package, w.attempts[other].branch);
      assert ReachedDevelopment(w, package);
    } else {
      assert BranchHeld(w, w.attempts[other].branch);
    }
  }

  lemma {:induction false} OnceStays(w: World, run: seq<Step>)
    requires Initial(w) && Fixed(run)
    ensures OnceOnDevelopment(Runs(w, run))
    decreases |run|
  {
    hide Take, Inv, OnDevelopment;
    if run == [] {
      NobodyYet(w);
    } else {
      OnceStays(w, run[..|run| - 1]);
      RunKeeps(w, run[..|run| - 1]);
      StepKeepsOnce(Runs(w, run[..|run| - 1]), run[|run| - 1]);
    }
  }

  lemma NobodyYet(w: World)
    requires Initial(w)
    ensures OnceOnDevelopment(w)
  {
  }

  /** While the policy stays the same, no package is published to the development branch by two attempts. */
  lemma DevelopmentReceivesOnce(w: World, run: seq<Step>, i: AttemptId, j: AttemptId)
    requires Initial(w) && Fixed(run) && IsPublished(Runs(w, run), i) && IsPublished(Runs(w, run), j)
    requires Runs(w, run).attempts[i].package == Runs(w, run).attempts[j].package
    requires w.policy.development == Some(Runs(w, run).attempts[i].branch)
    requires Runs(w, run).attempts[i].branch == Runs(w, run).attempts[j].branch
    ensures i == j
  {
    var v := Runs(w, run);
    OnceStays(w, run);
    PolicyStays(w, run);
    assert OnDevelopment(v, i, v.attempts[i].package) && OnDevelopment(v, j, v.attempts[i].package);
  }
}
