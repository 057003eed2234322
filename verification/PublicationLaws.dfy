/** What publication guarantees over every run: what may leave this machine, and what it finds where it lands. */
module PublicationLaws {
  import opened Wrappers
  import opened TaskLifecycle
  import opened RepositoryPolicies
  import opened Publications
  import opened PublicationSafety

  /** Somewhere beyond this machine: on the remote now or before, or on its way there. */
  ghost predicate Out(w: World, commit: Commit) {
    || (exists b :: b in w.remote && w.remote[b] == commit)
    || Seen(w, commit)
    || (exists p :: p in w.wire && p.commit == commit)
  }

  /** A candidate leaves only after its attempt durably names it and records that a push may be pending. */
  lemma NamedBeforeItLeaves(w: World, run: seq<Step>, commit: Commit)
    requires Initial(w) && commit.Candidate? && Out(Runs(w, run), commit)
    ensures Names(Runs(w, run), commit.attempt, commit)
    ensures Runs(w, run).attempts[commit.attempt].parent == Some(commit.parent)
  {
    var v := Runs(w, run);
    RunKeeps(w, run);
    if p :| p in v.wire && p.commit == commit {
      CarriesItsOwn(v, p);
    } else {
      if b :| b in v.remote && v.remote[b] == commit {
        HeadIsHeld(v, b);
      }
      var h :| h in v.held && h.commit == commit;
      assert Names(v, h.commit.attempt, h.commit);
    }
    AttemptOf(v, commit.attempt);
  }

  /** An attempt is recorded as published only if the remote really had its candidate on its branch. */
  lemma PublishedWasThere(w: World, run: seq<Step>, id: AttemptId)
    requires Initial(w) && id in Runs(w, run).attempts && Runs(w, run).attempts[id].state.status.Published?
    ensures var a := Runs(w, run).attempts[id];
            a.candidate.Some? && Holding(a.branch, a.candidate.value) in Runs(w, run).held
  {
    RunKeeps(w, run);
    AttemptOf(Runs(w, run), id);
  }

  /** A push on its way belongs to the one attempt that owns the branch it is for, so no two race. */
  lemma OneRacerPerBranch(w: World, run: seq<Step>, p: Push, q: Push)
    requires Initial(w) && p in Runs(w, run).wire
    ensures p.attempt in Runs(w, run).attempts && Runs(w, run).attempts[p.attempt].Holds()
    ensures Runs(w, run).attempts[p.attempt].branch == p.branch
    ensures q in Runs(w, run).wire && q.branch == p.branch ==> q == p
  {
    var v := Runs(w, run);
    RunKeeps(w, run);
    assert PushSound(v, p);
    if q in v.wire && q.branch == p.branch {
      assert PushSound(v, q);
    }
  }

  /** The step applies a push of this commit. */
  predicate Lands(w: World, step: Step, commit: Commit) {
    step.Deliver? && step.push in w.wire && step.push.commit == commit && w.Head(step.push.branch) == step.push.lease
  }

  /** What lands goes on top of what was there, or creates the branch: other writers' work is never overwritten. */
  lemma LandsOnItsParent(w: World, run: seq<Step>, step: Step, commit: Commit)
    requires Initial(w) && Lands(Runs(w, run), step, commit)
    ensures commit.Candidate?
    ensures var head := Runs(w, run).Head(step.push.branch); head.None? || head.value == commit.parent
    ensures Take(Runs(w, run), step).Head(step.push.branch) == Some(commit)
    ensures forall b | b != step.push.branch :: Take(Runs(w, run), step).Head(b) == Runs(w, run).Head(b)
  {
    var v := Runs(w, run);
    RunKeeps(w, run);
    CarriesItsOwn(v, step.push);
    assert PushSound(v, step.push);
    AttemptOf(v, step.push.attempt);
  }

  /** How an attempt may change: its identity never, a published one not at all. */
  predicate Follows(a: Attempt, b: Attempt) {
    && b.branch == a.branch && b.package == a.package
    && (a.candidate.Some? ==> b.candidate == a.candidate)
    && (a.parent.Some? ==> b.parent == a.parent)
    && (a.state.status.Published? ==> b.state == a.state)
    && (a.Reached().MayHaveReachedRemote() && Coherent(a.state) ==> b.Reached().MayHaveReachedRemote())
  }

  /** Only this attempt may have changed, and the remote, its history and the policy have not. */
  ghost predicate Touched(w: World, v: World, id: AttemptId) {
    && id in w.attempts && id in v.attempts && Follows(w.attempts[id], v.attempts[id])
    && v == w.(attempts := w.attempts[id := v.attempts[id]], activity := v.activity)
  }

  lemma AdvanceTouches(w: World, id: AttemptId, target: TaskStatus, reason: Option<StateReason>)
    requires id in w.attempts && AdvanceAttempt(w, id, target, reason).Some?
    requires !target.Cancelled? && !target.Superseded?
    ensures Touched(w, AdvanceAttempt(w, id, target, reason).value, id)
  {
  }

  lemma AdvanceToTouches(w: World, id: AttemptId, target: TaskStatus, next: Activity, refused: Activity)
    requires id in w.attempts && !target.Cancelled? && !target.Superseded?
    ensures Touched(w, AdvanceTo(w, id, target, next, refused), id)
  {
    hide AdvanceAttempt;
    if AdvanceAttempt(w, id, target, None).Some? {
      AdvanceTouches(w, id, target, None);
    }
  }

  lemma FailTouches(w: World, id: AttemptId, reason: StateReason)
    requires id in w.attempts
    ensures Touched(w, FailOn(w, id, reason), id)
  {
    hide AdvanceAttempt;
    var counted := w.(attempts := w.attempts[id := w.attempts[id].(failures := w.attempts[id].failures + 1)]);
    if AdvanceAttempt(counted, id, Blocked, Some(reason)).Some? {
      AdvanceTouches(counted, id, Blocked, Some(reason));
    }
  }

  /** A worker sends at one point and otherwise only touches its own attempt. */
  lemma WorkTouches(w: World, id: AttemptId, to: Publication, at: Point)
    requires id in w.attempts
    ensures Touched(w, WorkOn(w, id, to, at).(wire := w.wire), id)
    ensures w.wire <= WorkOn(w, id, to, at).wire
    ensures !at.Pushing? ==> WorkOn(w, id, to, at).wire == w.wire
  {
    hide AdvanceTo, Content;
    var failing := Failing(id, INTERNAL_ERROR);
    match at
    case Opened => AdvanceToTouches(w, id, Reconciling, Working(id, to, AskingHead), failing);
    case Applying(parent) => AdvanceToTouches(w, id, Verifying, Working(id, to, Checking(parent)), failing);
    case Checking(parent) => AdvanceToTouches(w, id, CommitPrepared, Working(id, to, Preparing(parent)), failing);
    case Intending(parent) => AdvanceToTouches(w, id, PushPending, Working(id, to, Leasing(parent)), failing);
    case _ =>
  }

  lemma ConfirmTouches(w: World, id: AttemptId, stage: Stage, recovering: bool)
    requires id in w.attempts
    ensures Touched(w, ConfirmOn(w, id, stage, recovering).(tasks := w.tasks), id)
    ensures !stage.Mark? ==> ConfirmOn(w, id, stage, recovering).tasks == w.tasks
  {
    hide AdvanceTo, Advance;
    var refused := if recovering then Idle else Failing(id, INTERNAL_ERROR);
    match stage
    case Resume => AdvanceToTouches(w, id, PushPending, Confirming(id, Observe, recovering), refused);
    case Confirm => AdvanceToTouches(w, id, RemoteConfirmed, Confirming(id, Publish, recovering), refused);
    case Publish => AdvanceToTouches(w, id, Published, Confirming(id, Settle, recovering), refused);
    case _ =>
  }

  ghost predicate AllFollow(w: World, v: World) {
    v.attempts.Keys == w.attempts.Keys && forall id | id in w.attempts :: Follows(w.attempts[id], v.attempts[id])
  }

  /** Only attempts, the activity, and what is named separately, may differ. */
  ghost predicate LocalChange(w: World, v: World) {
    && v == w.(attempts := v.attempts, activity := v.activity, wire := v.wire, tasks := v.tasks)
    && AllFollow(w, v)
  }

  lemma TouchedIsLocal(w: World, v: World, id: AttemptId)
    requires Touched(w, v.(wire := w.wire, tasks := w.tasks), id)
    ensures LocalChange(w, v)
  {
  }

  lemma OthersTouch(w: World, id: AttemptId, until: nat)
    requires id in w.attempts
    ensures Touched(w, AskBranch(w, id), id)
    ensures Touched(w, FetchBranch(w, id), id)
    ensures Touched(w, DeferRetry(w, id, until), id)
  {
  }

  /** The only activities that change tasks. */
  predicate MovesTasks(activity: Activity) {
    activity.Stopping? || (activity.Confirming? && activity.stage.Mark?)
  }

  lemma StopFrame(w: World, id: AttemptId, reason: StateReason, rest: seq<TaskId>)
    ensures var v := StopTask(w, id, reason, rest); v == w.(tasks := v.tasks, activity := v.activity)
  {
    hide Advance;
  }

  /** Whatever worker or recovery does, the remote itself stays as it is. */
  lemma ProceedFrame(w: World, exchange: Exchange)
    ensures var v := Proceed(w, exchange);
            && LocalChange(w, v)
            && w.wire <= v.wire
            && (!(w.activity.Working? && w.activity.at.Pushing?) ==> v.wire == w.wire)
            && (!MovesTasks(w.activity) ==> v.tasks == w.tasks)
  {
    hide WorkOn, ConfirmOn, FailOn, StopTask, AskBranch, FetchBranch, DeferRetry, LocalChange, MayDefer;
    var v := Proceed(w, exchange);
    EnteredIsLocal(w, v.activity);
    if w.activity.Stopping? {
      if exchange.Succeeds? {
        StopFrame(w, w.activity.id, w.activity.reason, w.activity.rest);
        TasksAreLocal(w, v);
      }
    } else if !w.activity.Idle? && w.activity.id in w.attempts {
      hide Proceed;
      ActiveTouches(w, exchange);
      TouchedIsLocal(w, v, w.activity.id);
    }
  }

  /** An activity on an attempt touches that attempt, sends at one point, and moves tasks at one stage. */
  lemma ActiveTouches(w: World, exchange: Exchange)
    requires !w.activity.Idle? && !w.activity.Stopping? && w.activity.id in w.attempts
    ensures var v := Proceed(w, exchange);
            && Touched(w, v.(wire := w.wire, tasks := w.tasks), w.activity.id)
            && w.wire <= v.wire
            && (!(w.activity.Working? && w.activity.at.Pushing?) ==> v.wire == w.wire)
            && (!(w.activity.Confirming? && w.activity.stage.Mark?) ==> v.tasks == w.tasks)
  {
    hide WorkOn, ConfirmOn, FailOn, AskBranch, FetchBranch, DeferRetry, Touched;
    var id := w.activity.id;
    EnteredTouches(w, Proceed(w, exchange).activity, id);
    match w.activity
    case Working(_, to, at) =>
      WorkTouches(w, id, to, at);
      WorkKeepsTasks(w, id, to, at);
      OthersTouch(w, id, if exchange.Defers? then exchange.until else 0);
      TouchedKeeps(w, DeferRetry(w, id, if exchange.Defers? then exchange.until else 0), id);
    case Confirming(_, stage, recovering) =>
      ConfirmTouches(w, id, stage, recovering);
      TouchedKeeps(w, ConfirmOn(w, id, stage, recovering).(tasks := w.tasks), id);
    case Failing(_, reason) =>
      FailTouches(w, id, reason);
      TouchedKeeps(w, FailOn(w, id, reason), id);
    case AskingBranch(_) =>
      OthersTouch(w, id, 0);
      TouchedKeeps(w, AskBranch(w, id), id);
    case FetchingBranch(_) =>
      OthersTouch(w, id, 0);
      TouchedKeeps(w, FetchBranch(w, id), id);
  }

  lemma EnteredTouches(w: World, next: Activity, id: AttemptId)
    requires id in w.attempts
    ensures Touched(w, w.Entered(next), id) && w.Entered(next) == w.Entered(next).(wire := w.wire, tasks := w.tasks)
    ensures Touched(w, w, id)
  {
    assert w.attempts[id := w.attempts[id]] == w.attempts;
  }

  lemma TouchedKeeps(w: World, v: World, id: AttemptId)
    requires Touched(w, v, id)
    ensures v.(wire := w.wire, tasks := w.tasks) == v && v.wire == w.wire && v.tasks == w.tasks
  {
  }

  lemma WorkKeepsTasks(w: World, id: AttemptId, to: Publication, at: Point)
    requires id in w.attempts
    ensures WorkOn(w, id, to, at).tasks == w.tasks
  {
    hide Advance, Content;
  }

  lemma TasksAreLocal(w: World, v: World)
    requires v == w.(tasks := v.tasks, activity := v.activity)
    ensures LocalChange(w, v)
  {
  }

  lemma EnteredIsLocal(w: World, next: Activity)
    ensures LocalChange(w, w.Entered(next))
  {
  }

  /** Recovery reads the remote and nothing more. */
  lemma RecoveryNeverWrites(w: World, step: Step)
    requires step.StartRecovery?
             || (step.Go? && (w.activity.AskingBranch? || w.activity.FetchingBranch? || w.activity.Confirming?
                              || w.activity.Failing? || w.activity.Stopping?))
    ensures var v := Take(w, step); v.remote == w.remote && v.held == w.held && v.wire == w.wire
  {
    if step.Go? {
      ProceedFrame(w, step.exchange);
    }
  }

  lemma FollowsItself(w: World)
    ensures forall id | id in w.attempts :: Follows(w.attempts[id], w.attempts[id])
  {
  }

  lemma StepFrame(w: World, step: Step)
    ensures var v := Take(w, step);
            && w.held <= v.held
            && (!step.SetPolicy? ==> v.policy == w.policy)
            && (step.Open? || AllFollow(w, v))
            && (forall id | id in w.attempts :: id in v.attempts && Follows(w.attempts[id], v.attempts[id]))
            && (!(step.Go? && MovesTasks(w.activity)) && !step.Command? ==> v.tasks == w.tasks)
  {
    hide Proceed, Choose, BranchHeld, Withheld, Follows, MovesTasks, ChangeTask;
    FollowsItself(w);
    if step.Command? {
      CommandFrame(w, step.task, step.request);
    }
    if step.Go? {
      ProceedFrame(w, step.exchange);
    }
  }

  lemma {:induction false} HeldStays(w: World, run: seq<Step>, i: nat, j: nat)
    requires i <= j <= |run|
    ensures Runs(w, run[..i]).held <= Runs(w, run[..j]).held
    decreases j
  {
    hide Take;
    if i < j {
      HeldStays(w, run, i, j - 1);
      assert run[..j][..j - 1] == run[..j - 1];
      StepFrame(Runs(w, run[..j - 1]), run[j - 1]);
    }
  }

  /** No candidate is applied to the remote twice, however often the process restarts. */
  lemma LandsAtMostOnce(w: World, run: seq<Step>, i: nat, j: nat, commit: Commit)
    requires Initial(w) && i < j < |run|
    requires Lands(Runs(w, run[..i]), run[i], commit)
    ensures !Lands(Runs(w, run[..j]), run[j], commit)
  {
    hide Take, Inv, Initial;
    var before, after := Runs(w, run[..i]), Runs(w, run[..i + 1]);
    assert run[..i + 1][..i] == run[..i];
    LandingIsHeld(before, run[i], commit);
    HeldStays(w, run, i + 1, j);
    RunKeeps(w, run[..j]);
    if Lands(Runs(w, run[..j]), run[j], commit) {
      OnTheWireIsUnseen(Runs(w, run[..j]), run[j].push);
      assert Holding(run[i].push.branch, commit) in Runs(w, run[..j]).held;
    }
  }

  lemma LandingIsHeld(w: World, step: Step, commit: Commit)
    requires Lands(w, step, commit)
    ensures Holding(step.push.branch, commit) in Take(w, step).held
  {
  }

  lemma OnTheWireIsUnseen(w: World, push: Push)
    requires Inv(w) && push in w.wire
    ensures forall h | h in w.held :: h.commit != push.commit
  {
    assert PushSound(w, push);
  }
}
