/** Runs that lead where the protocol's guarantees end: each is shown to occur from every ordinary start. */
module PublicationRuns {
  import opened Wrappers
  import opened TaskLifecycle
  import opened RepositoryPolicies
  import opened Publications
  import opened PublicationSafety
  import opened PublicationTasks
  import opened PublicationRecovery
  import opened PublicationOutcomes
  import opened PublicationDelivery
  import opened PublicationContent

  /** The branch whose head the candidate is built on, when nobody moves it meanwhile. */
  function Base(w: World, to: Publication): Branch {
    if to.createIfAbsent && to.branch !in w.remote then to.base else to.branch
  }

  /** An attempt just opened, in a world where there is something to build on. */
  ghost predicate FreshlyOpened(w: World, id: AttemptId, to: Publication) {
    && w.activity == Working(id, to, Opened) && id in w.attempts && Base(w, to) in w.remote
    && (forall p | p in w.wire :: p.attempt != id)
    && var a := w.attempts[id];
       && a.state == State(Scheduled, None, None) && a.branch == to.branch
       && a.candidate.None? && a.parent.None? && a.retryNotBefore.None? && a.observed.None?
       && a.failures == 0
  }

  /** And there is something to publish: the base does not hold the package yet. */
  ghost predicate AddsWork(w: World, id: AttemptId, to: Publication) {
    FreshlyOpened(w, id, to) && !Contains(w.remote[Base(w, to)], w.attempts[id].package)
  }

  function Built(w: World, id: AttemptId, parent: Commit): Commit
    requires id in w.attempts
  {
    Candidate(id, w.attempts[id].package, parent)
  }

  /** The world with this attempt brought to a stage, its candidate named once it has a parent. */
  function At(w: World, id: AttemptId, status: TaskStatus, parent: Option<Commit>): World
    requires id in w.attempts
  {
    var candidate := if parent.Some? then Some(Built(w, id, parent.value)) else None;
    w.(attempts := w.attempts[id :=
         w.attempts[id].(state := State(status, None, None), candidate := candidate, parent := parent)])
  }

  /** One more step, from a world that is known to one that is known. */
  lemma Then(w: World, run: seq<Step>, step: Step, from: World, to: World) returns (longer: seq<Step>)
    requires Runs(w, run) == from && Take(from, step) == to
    ensures Runs(w, longer) == to
  {
    RunsOneMore(w, run, step);
    longer := run + [step];
  }

  /** An advance the lifecycle permits is made. */
  lemma Advances(v: World, id: AttemptId, target: TaskStatus, next: Activity, refused: Activity)
    requires id in v.attempts && v.attempts[id].retryNotBefore.None?
    requires v.attempts[id].state.status.Next() == Some(target)
    ensures AdvanceTo(v, id, target, next, refused) ==
      v.(attempts := v.attempts[id := v.attempts[id].(state := State(target, None, None))]).Entered(next)
  {
  }

  /** One step of a worker that advances its attempt. */
  lemma WorkerAdvances(
    w: World, id: AttemptId, to: Publication, at: Point, next: Point, from: TaskStatus, target: TaskStatus, parent: Option<Commit>)
    requires id in w.attempts && w.attempts[id].retryNotBefore.None? && from.Next() == Some(target)
    requires || (at.Opened? && target.Reconciling? && next == AskingHead)
             || (at.Applying? && target.Verifying? && next == Checking(at.parent))
             || (at.Checking? && target.CommitPrepared? && next == Preparing(at.parent))
             || (at.Intending? && target.PushPending? && next == Leasing(at.parent))
    ensures Take(At(w, id, from, parent).Entered(Working(id, to, at)), Go(Succeeds))
            == At(w, id, target, parent).Entered(Working(id, to, next))
  {
    hide AdvanceTo, Content;
    var v := At(w, id, from, parent).Entered(Working(id, to, at));
    Advances(v, id, target, Working(id, to, next), Failing(id, INTERNAL_ERROR));
  }

  lemma UpToApplying(w: World, id: AttemptId, to: Publication) returns (run: seq<Step>)
    requires FreshlyOpened(w, id, to)
    ensures Runs(w, run) == At(w, id, Reconciling, None).Entered(Working(id, to, Applying(w.remote[Base(w, to)])))
  {
    OneStep(w, Go(Succeeds));
    run := [Go(Succeeds)];
    WorkerAdvances(w, id, to, Opened, AskingHead, Scheduled, Reconciling, None);
    var w2 := At(w, id, Reconciling, None).Entered(Working(id, to, AskingHead));
    assert Runs(w, run) == w2 by {
      assert w == At(w, id, Scheduled, None).Entered(Working(id, to, Opened));
    }
    hide Runs;
    var w3 := w2.Entered(Working(id, to, Fetching(Base(w, to))));
    run := Then(w, run, Go(Succeeds), w2, w3);
    run := Then(w, run, Go(Succeeds), w3, w2.Entered(Working(id, to, Applying(w.remote[Base(w, to)]))));
  }

  lemma UpToPreparing(w: World, id: AttemptId, to: Publication) returns (run: seq<Step>)
    requires FreshlyOpened(w, id, to)
    ensures Runs(w, run) == At(w, id, CommitPrepared, None).Entered(Working(id, to, Preparing(w.remote[Base(w, to)])))
  {
    run := UpToApplying(w, id, to);
    hide Runs, Take, At;
    var head := w.remote[Base(w, to)];
    var w4 := At(w, id, Reconciling, None).Entered(Working(id, to, Applying(head)));
    var w5 := At(w, id, Verifying, None).Entered(Working(id, to, Checking(head)));
    WorkerAdvances(w, id, to, Applying(head), Checking(head), Reconciling, Verifying, None);
    run := Then(w, run, Go(Succeeds), w4, w5);
    WorkerAdvances(w, id, to, Checking(head), Preparing(head), Verifying, CommitPrepared, None);
    run := Then(w, run, Go(Succeeds), w5, At(w, id, CommitPrepared, None).Entered(Working(id, to, Preparing(head))));
  }

  lemma UpToIntending(w: World, id: AttemptId, to: Publication) returns (run: seq<Step>)
    requires AddsWork(w, id, to)
    ensures var head := w.remote[Base(w, to)];
            Runs(w, run) == At(w, id, CommitPrepared, Some(head)).Entered(Working(id, to, Intending(head)))
  {
    run := UpToPreparing(w, id, to);
    hide Runs;
    var head := w.remote[Base(w, to)];
    var w6 := At(w, id, CommitPrepared, None).Entered(Working(id, to, Preparing(head)));
    run := Then(w, run, Go(Succeeds), w6,
                At(w, id, CommitPrepared, Some(head)).Entered(Working(id, to, Intending(head))));
  }

  /** The pushed candidate at the head of its branch. */
  function Shown(w: World, id: AttemptId, to: Publication, status: TaskStatus): World
    requires id in w.attempts && Base(w, to) in w.remote
  {
    var head := w.remote[Base(w, to)];
    At(w, id, status, Some(head)).WithHead(to.branch, Built(w, id, head))
  }

  lemma UpToLeasing(w: World, id: AttemptId, to: Publication) returns (run: seq<Step>)
    requires AddsWork(w, id, to)
    ensures var head := w.remote[Base(w, to)];
            Runs(w, run) == At(w, id, PushPending, Some(head)).Entered(Working(id, to, Leasing(head)))
  {
    run := UpToIntending(w, id, to);
    hide Runs, Take, At;
    var head := w.remote[Base(w, to)];
    var w7 := At(w, id, CommitPrepared, Some(head)).Entered(Working(id, to, Intending(head)));
    WorkerAdvances(w, id, to, Intending(head), Leasing(head), CommitPrepared, PushPending, Some(head));
    run := Then(w, run, Go(Succeeds), w7, At(w, id, PushPending, Some(head)).Entered(Working(id, to, Leasing(head))));
  }

  lemma UpToPushing(w: World, id: AttemptId, to: Publication) returns (run: seq<Step>)
    requires AddsWork(w, id, to)
    ensures var head := w.remote[Base(w, to)];
            Runs(w, run) == At(w, id, PushPending, Some(head)).Entered(Working(id, to, Pushing(head, w.Head(to.branch))))
  {
    run := UpToLeasing(w, id, to);
    hide Runs, Content, Contains;
    var head := w.remote[Base(w, to)];
    var w8 := At(w, id, PushPending, Some(head)).Entered(Working(id, to, Leasing(head)));
    run := Then(w, run, Go(Succeeds), w8, w8.Entered(Working(id, to, Pushing(head, w.Head(to.branch)))));
  }

  lemma UpToSent(w: World, id: AttemptId, to: Publication) returns (run: seq<Step>)
    requires AddsWork(w, id, to)
    ensures Runs(w, run) == Shown(w, id, to, PushPending).Entered(Working(id, to, Sent(w.remote[Base(w, to)])))
  {
    run := UpToPushing(w, id, to);
    hide Runs, Content, Contains;
    var head := w.remote[Base(w, to)];
    var w9 := At(w, id, PushPending, Some(head)).Entered(Working(id, to, Pushing(head, w.Head(to.branch))));
    var push := Push(id, to.branch, w.Head(to.branch), Built(w, id, head));
    var w10 := w9.(wire := w.wire + {push}).Entered(Working(id, to, Sent(head)));
    run := Then(w, run, Go(Succeeds), w9, w10);
    assert w.wire + {push} - {push} == w.wire;
    run := Then(w, run, Deliver(push), w10, Shown(w, id, to, PushPending).Entered(Working(id, to, Sent(head))));
  }

  /** What was observed is recorded beside the state. */
  function Observed(w: World, id: AttemptId, to: Publication, status: TaskStatus): World
    requires id in w.attempts && Base(w, to) in w.remote
  {
    var shown := Shown(w, id, to, status);
    shown.(attempts := shown.attempts[id := shown.attempts[id].(observed := shown.attempts[id].candidate)])
  }

  lemma UpToConfirm(w: World, id: AttemptId, to: Publication) returns (run: seq<Step>)
    requires AddsWork(w, id, to)
    ensures Runs(w, run) == Observed(w, id, to, PushPending).Entered(Confirming(id, Confirm, false))
  {
    run := UpToSent(w, id, to);
    hide Runs, Content, Contains;
    var go, shown := Go(Succeeds), Shown(w, id, to, PushPending);
    var w11 := shown.Entered(Working(id, to, Sent(w.remote[Base(w, to)])));
    var w12 := shown.Entered(Confirming(id, Resume, false));
    run := Then(w, run, go, w11, w12);
    var w13 := shown.Entered(Confirming(id, Observe, false));
    run := Then(w, run, go, w12, w13);
    run := Then(w, run, go, w13, Observed(w, id, to, PushPending).Entered(Confirming(id, Confirm, false)));
  }

  /** One advance of a confirmation. */
  lemma OneAdvance(v: World, id: AttemptId, stage: Stage, next: Stage, from: TaskStatus, to: TaskStatus)
    requires (stage == Confirm && next == Publish && from == PushPending && to == RemoteConfirmed)
             || (stage == Publish && next == Settle && from == RemoteConfirmed && to == Published)
    requires v.activity == Confirming(id, stage, false) && id in v.attempts
    requires v.attempts[id].state == State(from, None, None) && v.attempts[id].retryNotBefore.None?
    ensures Take(v, Go(Succeeds)) ==
      v.(attempts := v.attempts[id := v.attempts[id].(state := State(to, None, None))]).Entered(Confirming(id, next, false))
  {
  }

  lemma ObservedAs(w: World, id: AttemptId, to: Publication, from: TaskStatus, status: TaskStatus)
    requires FreshlyOpened(w, id, to)
    ensures var seen := Observed(w, id, to, from);
            && id in seen.attempts && seen.attempts[id].state == State(from, None, None)
            && seen.attempts[id].retryNotBefore.None?
            && Observed(w, id, to, status)
               == seen.(attempts := seen.attempts[id := seen.attempts[id].(state := State(status, None, None))])
  {
  }

  lemma UpToPublish(w: World, id: AttemptId, to: Publication) returns (run: seq<Step>)
    requires AddsWork(w, id, to)
    ensures Runs(w, run) == Observed(w, id, to, RemoteConfirmed).Entered(Confirming(id, Publish, false))
  {
    run := UpToConfirm(w, id, to);
    hide Runs, Take, Observed;
    var w14 := Observed(w, id, to, PushPending).Entered(Confirming(id, Confirm, false));
    ObservedAs(w, id, to, PushPending, RemoteConfirmed);
    OneAdvance(w14, id, Confirm, Publish, PushPending, RemoteConfirmed);
    run := Then(w, run, Go(Succeeds), w14, Observed(w, id, to, RemoteConfirmed).Entered(Confirming(id, Publish, false)));
  }

  lemma UpToSettle(w: World, id: AttemptId, to: Publication) returns (run: seq<Step>)
    requires AddsWork(w, id, to)
    ensures Runs(w, run) == Observed(w, id, to, Published).Entered(Confirming(id, Settle, false))
  {
    run := UpToPublish(w, id, to);
    hide Runs, Take, Observed;
    var w15 := Observed(w, id, to, RemoteConfirmed).Entered(Confirming(id, Publish, false));
    ObservedAs(w, id, to, RemoteConfirmed, Published);
    OneAdvance(w15, id, Publish, Settle, RemoteConfirmed, Published);
    run := Then(w, run, Go(Succeeds), w15, Observed(w, id, to, Published).Entered(Confirming(id, Settle, false)));
  }

  /**
   * Undisturbed, an attempt opened on a base that lacks its package is published, its candidate at the head of
   * its branch. If that is the target, its tasks are marked as far as none is blocked, ended or missing.
   */
  lemma UndisturbedPublishes(w: World, id: AttemptId, to: Publication) returns (run: seq<Step>)
    requires AddsWork(w, id, to)
    ensures var v, a := Runs(w, run), w.attempts[id];
            && v.activity.Idle? && v.policy == w.policy && v.wire == w.wire
            && v.attempts == w.attempts[id := Observed(w, id, to, Published).attempts[id]]
            && v.remote == w.remote[to.branch := Built(w, id, w.remote[Base(w, to)])]
            && v.tasks == if a.branch == w.policy.target then Marked(w.tasks, a.package.tasks) else w.tasks
  {
    run := UpToSettle(w, id, to);
    hide Runs, Marked;
    var w16 := Observed(w, id, to, Published).Entered(Confirming(id, Settle, false));
    var settled := Take(w16, Go(Succeeds));
    run := Then(w, run, Go(Succeeds), w16, settled);
    if w.attempts[id].branch == w.policy.target {
      var marking := Marking(settled, id, w.attempts[id].package.tasks, false);
      RunsAppend(w, run, marking);
      run := run + marking;
    }
  }

  /** The world with this attempt stopped for want of anything to commit, and its tasks with it. */
  function Empty(w: World, id: AttemptId): World
    requires id in w.attempts
  {
    var a := w.attempts[id];
    w.(attempts := w.attempts[id := a.(state := State(Blocked, Some(COMMIT_FAILED), Some(CommitPrepared)), failures := 1)],
       tasks := Stopped(w.tasks, a.package.tasks, COMMIT_FAILED))
     .Entered(Idle)
  }

  /** One opened on a base that holds its package already is stopped, and its tasks are blocked. */
  lemma UndisturbedStops(w: World, id: AttemptId, to: Publication) returns (run: seq<Step>)
    requires FreshlyOpened(w, id, to) && Contains(w.remote[Base(w, to)], w.attempts[id].package)
    ensures Runs(w, run) == Empty(w, id)
  {
    run := UpToPreparing(w, id, to);
    hide Runs, Stopped;
    var go, tasks := Go(Succeeds), w.attempts[id].package.tasks;
    var w6 := At(w, id, CommitPrepared, None).Entered(Working(id, to, Preparing(w.remote[Base(w, to)])));
    var w7 := w6.Entered(Failing(id, COMMIT_FAILED));
    run := Then(w, run, go, w6, w7);
    var w8 := Empty(w, id).(tasks := w.tasks).Entered(Stopping(id, COMMIT_FAILED, tasks));
    run := Then(w, run, go, w7, w8);
    var stopping := Stops(w8, id, COMMIT_FAILED, tasks);
    RunsAppend(w, run, stopping);
    run := run + stopping;
  }

  // ------------------------------------------------------ from the start

  /** The first release of a package goes to a branch whose base is there and lacks the package. */
  predicate MayBegin(w: World, package: Package) {
    w.policy.target in w.remote
    && !Contains(w.remote[w.policy.target], package)
    && (w.policy.development.Some? && w.policy.development.value in w.remote ==>
          !Contains(w.remote[w.policy.development.value], package))
  }

  lemma OpensFirst(w: World, id: AttemptId, package: Package, maintenance: bool)
    requires Initial(w) && w.policy.target in w.remote
    ensures FreshlyOpened(Take(w, Open(id, package, maintenance)), id, Choose(w.policy, false))
    ensures MayBegin(w, package) ==> AddsWork(Take(w, Open(id, package, maintenance)), id, Choose(w.policy, false))
    ensures var v := Take(w, Open(id, package, maintenance));
            && v.attempts.Keys == {id} && v.attempts[id].package == package && v.tasks == w.tasks
            && v.remote == w.remote && v.policy == w.policy && v.wire == {}
  {
  }

  /** A crash straight after opening locks the branch, in every mode. */
  lemma LockingIsReachable(w: World, id: AttemptId, package: Package) returns (run: seq<Step>)
    requires Initial(w) && w.policy.target in w.remote
    ensures var v := Runs(w, run);
            Locked(v, id) && v.attempts[id].branch == Choose(w.policy, false).branch && v.remote == w.remote
  {
    run := [Open(id, package, true)] + [Crash];
    OpensFirst(w, id, package, true);
    OneStep(w, Open(id, package, true));
    RunsOneMore(w, [Open(id, package, true)], Crash);
  }

  /** So does one between recording that the remote has the candidate and recording the publication. */
  lemma StrandingIsReachable(w: World, id: AttemptId, package: Package) returns (run: seq<Step>)
    requires Initial(w) && MayBegin(w, package)
    ensures var v := Runs(w, run);
            && Locked(v, id) && v.attempts[id].state.status.RemoteConfirmed?
            && v.Head(v.attempts[id].branch) == v.attempts[id].candidate
  {
    var open, to := Open(id, package, true), Choose(w.policy, false);
    OpensFirst(w, id, package, true);
    var began := Take(w, open);
    var rest := UpToPublish(began, id, to);
    hide Runs, Take, Initial;
    FromStart(w, open, rest);
    var stopped := Observed(began, id, to, RemoteConfirmed).Entered(Confirming(id, Publish, false));
    CrashIdles(stopped);
    run := Then(w, [open] + rest, Crash, stopped, stopped.Entered(Idle));
  }

  lemma CrashIdles(w: World)
    ensures Take(w, Crash) == w.Entered(Idle)
  {
  }

  /** Work that is at the head of the target, published, and out of recovery's reach. */
  ghost predicate PublishedAtTarget(w: World, id: AttemptId, package: Package) {
    && w.activity.Idle? && IsPublished(w, id) && Dormant(w, id) && w.attempts[id].package == package
    && w.attempts[id].branch == w.policy.target && w.Head(w.policy.target) == w.attempts[id].candidate
    && w.attempts[id].candidate.Some? && Contains(w.attempts[id].candidate.value, package)
    && Take(w, StartRecovery(id)) == w
  }

  /** A crash after the publication is recorded and before its tasks are leaves such work with no task published. */
  lemma UndeliveredIsReachable(w: World, id: AttemptId, package: Package) returns (run: seq<Step>)
    requires Initial(w) && w.policy.mode.ScheduledCreation? && MayBegin(w, package)
    ensures var v := Runs(w, run);
            && PublishedAtTarget(v, id, package) && v.tasks == w.tasks && v.policy == w.policy
            && v.attempts.Keys == {id} && v.wire == {}
  {
    var open, to := Open(id, package, true), Choose(w.policy, false);
    OpensFirst(w, id, package, true);
    var began := Take(w, open);
    var rest := UpToSettle(began, id, to);
    hide Runs, Initial;
    FromStart(w, open, rest);
    var stopped := Observed(began, id, to, Published).Entered(Confirming(id, Settle, false));
    run := Then(w, [open] + rest, Crash, stopped, stopped.Entered(Idle));
  }

  /**
   * Releasing that package again does not help: nothing is left to commit, so the second attempt is stopped
   * and blocks the tasks, which then stay unpublished in every run.
   */
  lemma RetryBlocksForGood(w: World, id: AttemptId, second: AttemptId, package: Package, task: TaskId) returns (run: seq<Step>)
    requires Initial(w) && w.policy.mode.ScheduledCreation? && MayBegin(w, package) && id != second
    requires task in package.tasks && task in w.tasks
    ensures PublishedAtTarget(Runs(w, run), id, package) && OffPath(Runs(w, run), task)
  {
    var first := UndeliveredIsReachable(w, id, package);
    var v, open := Runs(w, first), Open(second, package, true);
    hide Runs, Take, Initial;
    OpensAgain(v, id, second, package, true);
    var reopened := Take(v, open);
    var to := Publication(v.policy.target, v.policy.target, false);
    var rest := UndisturbedStops(reopened, second, to);
    RunsOneMore(w, first, open);
    RunsAppend(w, first + [open], rest);
    run := first + [open] + rest;
    StoppedExactly(w.tasks, package.tasks, COMMIT_FAILED, task);
    NothingPublished(w, task);
    StillAtTarget(v, Runs(w, run), id, package);
  }

  lemma NothingPublished(w: World, task: TaskId)
    requires Initial(w)
    ensures !TaskPublished(w, task)
  {
  }

  lemma StillAtTarget(w: World, v: World, id: AttemptId, package: Package)
    requires PublishedAtTarget(w, id, package) && v.activity.Idle? && v.remote == w.remote && v.policy == w.policy
    requires id in v.attempts && v.attempts[id] == w.attempts[id]
    ensures PublishedAtTarget(v, id, package)
  {
  }

  /** A second release of a package that is on the target is opened there, if nobody holds the branch. */
  lemma OpensAgain(v: World, id: AttemptId, second: AttemptId, package: Package, maintenance: bool)
    requires v.policy.Sound() && v.policy.mode.ScheduledCreation? && v.activity.Idle? && v.attempts.Keys == {id}
    requires id != second && v.attempts[id].state.status.Published? && v.policy.target in v.remote && v.wire == {}
    ensures var u := Take(v, Open(second, package, maintenance));
            && FreshlyOpened(u, second, Publication(v.policy.target, v.policy.target, false))
            && u.attempts[second].package == package && u.attempts == v.attempts[second := u.attempts[second]]
            && u == v.(attempts := u.attempts, activity := u.activity)
            && Base(u, Publication(v.policy.target, v.policy.target, false)) == v.policy.target
  {
    assert !BranchHeld(v, v.policy.target);
  }

  // -------------------------------------- blocked before it was found landed

  /** The world with this attempt blocked at its pending push, and its tasks with it. */
  function GaveUp(w: World, id: AttemptId, to: Publication): World
    requires id in w.attempts && Base(w, to) in w.remote
  {
    var sent := At(w, id, PushPending, Some(w.remote[Base(w, to)]));
    sent.(attempts := sent.attempts[id := FailedPending(sent.attempts[id])],
          tasks := Stopped(w.tasks, w.attempts[id].package.tasks, INTERNAL_ERROR))
        .Entered(Idle)
  }

  function PushOf(w: World, id: AttemptId, to: Publication): Push
    requires id in w.attempts && Base(w, to) in w.remote
  {
    Push(id, to.branch, w.Head(to.branch), Built(w, id, w.remote[Base(w, to)]))
  }

  /** A push whose success is not confirmed in time blocks its attempt while it is still on its way. */
  lemma UpToGivingUp(w: World, id: AttemptId, to: Publication) returns (run: seq<Step>)
    requires AddsWork(w, id, to)
    ensures Runs(w, run) == GaveUp(w, id, to).(wire := w.wire + {PushOf(w, id, to)})
  {
    run := UpToPushing(w, id, to);
    hide Runs, Stopped;
    var head, go, tasks := w.remote[Base(w, to)], Go(Succeeds), w.attempts[id].package.tasks;
    var w9 := At(w, id, PushPending, Some(head)).Entered(Working(id, to, Pushing(head, w.Head(to.branch))));
    var w10 := w9.(wire := w.wire + {PushOf(w, id, to)}).Entered(Working(id, to, Sent(head)));
    run := Then(w, run, go, w9, w10);
    var w11 := w10.Entered(Working(id, to, Resolving(head)));
    run := Then(w, run, go, w10, w11);
    var w12 := w10.Entered(Failing(id, INTERNAL_ERROR));
    run := Then(w, run, go, w11, w12);
    var failing := FailingPending(w12, id);
    RunsAppend(w, run, failing);
    run := run + failing;
  }

  /**
   * The push then lands, recovery publishes the attempt, and the tasks stay blocked: the target holds the
   * work and no run ever records it.
   */
  lemma BlockedThenLanded(w: World, id: AttemptId, package: Package, task: TaskId) returns (run: seq<Step>)
    requires Initial(w) && w.policy.mode.ScheduledCreation? && MayBegin(w, package)
    requires task in package.tasks && task in w.tasks
    ensures PublishedAtTarget(Runs(w, run), id, package) && OffPath(Runs(w, run), task)
  {
    var open, to := Open(id, package, true), Choose(w.policy, false);
    OpensFirst(w, id, package, true);
    var began := Take(w, open);
    var rest := UpToGivingUp(began, id, to);
    FromStart(w, open, rest);
    var push, gaveUp := PushOf(began, id, to), GaveUp(began, id, to);
    var landed := gaveUp.WithHead(to.branch, push.commit);
    hide Runs, Stopped;
    assert gaveUp.wire + {push} - {push} == gaveUp.wire;
    run := Then(w, [open] + rest, Deliver(push), gaveUp.(wire := began.wire + {push}), landed);
    hide Take, Initial, Marked;
    RunKeeps(w, run);
    var recovery := RecoveryDiscovers(landed, id);
    RunsAppend(w, run, recovery);
    run := run + recovery;
    NothingPublished(w, task);
    StoppedExactly(w.tasks, package.tasks, INTERNAL_ERROR, task);
    StoppedAllBlocked(w.tasks, package.tasks, INTERNAL_ERROR, task);
    MarkedExactly(landed.tasks, package.tasks, task);
    ConfirmedAtTarget(landed, Marked(landed.tasks, package.tasks), id, package);
  }

  lemma StoppedAllBlocked(tasks: map<TaskId, State>, rest: seq<TaskId>, reason: StateReason, task: TaskId)
    requires task in rest && task in tasks && !tasks[task].status.Published?
    ensures task in Stopped(tasks, rest, reason) && Stopped(tasks, rest, reason)[task].status.Position().None?
    ensures !InReach(Stopped(tasks, rest, reason), rest, task)
  {
    hide Stopped;
    StoppedExactly(tasks, rest, reason, task);
    assert !OnPath(Stopped(tasks, rest, reason), task);
  }

  lemma ConfirmedAtTarget(w: World, tasks: map<TaskId, State>, id: AttemptId, package: Package)
    requires w.activity.Idle? && id in w.attempts && w.attempts[id].package == package
    requires w.attempts[id].branch == w.policy.target && w.Head(w.policy.target) == w.attempts[id].candidate
    requires w.attempts[id].candidate.Some? && Contains(w.attempts[id].candidate.value, package)
    ensures PublishedAtTarget(Confirmed(w, id).(tasks := tasks), id, package)
  {
  }

  // ---------------------------------------------------------- a second time

  /** Under a pull-request policy, a package released directly a second time is opened on the target. */
  lemma DirectReleaseHappens(w: World, id: AttemptId, second: AttemptId, package: Package) returns (run: seq<Step>)
    requires Initial(w) && w.policy.integration.PullRequest? && MayBegin(w, package) && id != second
    ensures var v := Runs(w, run);
            second in v.attempts && v.attempts[second].branch == v.policy.target && v.attempts[second].package == package
  {
    var open, to := Open(id, package, true), Choose(w.policy, false);
    OpensFirst(w, id, package, true);
    var began := Take(w, open);
    var rest := UndisturbedPublishes(began, id, to);
    FromStart(w, open, rest);
    var v := Runs(began, rest);
    hide Runs, Initial, Take;
    OpensOnTarget(v, id, second, package);
    run := Then(w, [open] + rest, Open(second, package, false), v, Take(v, Open(second, package, false)));
  }

  lemma OpensOnTarget(v: World, id: AttemptId, second: AttemptId, package: Package)
    requires v.policy.Sound() && v.activity.Idle? && v.attempts.Keys == {id} && id != second
    requires v.attempts[id].state.status.Published? && v.attempts[id].package == package
    requires v.attempts[id].branch == Choose(v.policy, false).branch
    ensures var u := Take(v, Open(second, package, false));
            second in u.attempts && u.attempts[second].branch == v.policy.target && u.attempts[second].package == package
  {
    assert ReachedDevelopment(v, package) <==> v.policy.development == Some(v.attempts[id].branch);
    assert !BranchHeld(v, v.policy.target);
  }

  /** In scheduled mode, once another writer puts the target back, a package is published there a second time. */
  lemma PublishedTwiceHappens(w: World, id: AttemptId, second: AttemptId, package: Package) returns (run: seq<Step>)
    requires Initial(w) && w.policy.mode.ScheduledCreation? && MayBegin(w, package) && id != second
    ensures var v := Runs(w, run);
            && IsPublished(v, id) && IsPublished(v, second)
            && v.attempts[id].package == v.attempts[second].package == package
            && v.attempts[id].branch == v.attempts[second].branch == v.policy.target
  {
    var first := UndeliveredIsReachable(w, id, package);
    var v, head := Runs(w, first), w.remote[w.policy.target];
    StartIsForeign(w);
    var back, again := Write(v.policy.target, head), Open(second, package, false);
    var u := v.WithHead(v.policy.target, head);
    hide Runs, Initial;
    var undone := Then(w, first, back, v, u);
    hide Take;
    RunKeeps(w, undone);
    InvIsSound(u);
    OpensAgain(u, id, second, package, false);
    var reopened := Take(u, again);
    var rest := UndisturbedPublishes(reopened, second, Publication(u.policy.target, u.policy.target, false));
    RunsOneMore(w, undone, again);
    RunsAppend(w, undone + [again], rest);
    run := undone + [again] + rest;
  }

  lemma StartIsForeign(w: World)
    requires Initial(w)
    ensures forall b | b in w.remote :: w.remote[b].Foreign?
  {
  }

  lemma InvIsSound(w: World)
    requires Inv(w)
    ensures w.policy.Sound()
  {
    PolicyIsSound(w);
  }
}
