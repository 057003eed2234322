/** Which interrupted publications recovery completes, and which nothing completes. */
module PublicationRecovery {
  import opened Wrappers
  import opened TaskLifecycle
  import opened RepositoryPolicies
  import opened Publications
  import opened PublicationSafety
  import opened PublicationLaws
  import opened PublicationTasks

  predicate ActiveOn(w: World, id: AttemptId) {
    !w.activity.Idle? && w.activity.id == id
  }

  /** Nobody is at work on the attempt, and recovery does not select it. */
  predicate Dormant(w: World, id: AttemptId) {
    id in w.attempts && !w.attempts[id].AwaitsResolution() && !ActiveOn(w, id)
  }

  /** It owns its branch with nobody to give it up. */
  predicate Locked(w: World, id: AttemptId) {
    Dormant(w, id) && w.attempts[id].Holds()
  }

  predicate StaysOn(activity: Activity, id: AttemptId) {
    activity.Idle? || activity.id == id
  }

  lemma WorkStaysOn(w: World, id: AttemptId, to: Publication, at: Point, until: nat)
    requires id in w.attempts
    ensures StaysOn(WorkOn(w, id, to, at).activity, id)
    ensures StaysOn(DeferRetry(w, id, until).activity, id)
  {
    hide Advance, Content;
  }

  /** What follows a confirmation, a failure or a look at the remote is never work. */
  lemma OthersStayOn(w: World, id: AttemptId, stage: Stage, recovering: bool, reason: StateReason)
    requires id in w.attempts
    ensures var v := ConfirmOn(w, id, stage, recovering); StaysOn(v.activity, id) && !v.activity.Working?
    ensures var v := FailOn(w, id, reason); StaysOn(v.activity, id) && !v.activity.Working?
    ensures StaysOn(AskBranch(w, id).activity, id) && !AskBranch(w, id).activity.Working?
    ensures StaysOn(FetchBranch(w, id).activity, id) && !FetchBranch(w, id).activity.Working?
  {
    hide Advance;
  }

  lemma StopStaysOn(w: World, id: AttemptId, reason: StateReason, rest: seq<TaskId>)
    ensures StaysOn(StopTask(w, id, reason, rest).activity, id) && !StopTask(w, id, reason, rest).activity.Working?
  {
  }

  /** An activity keeps to its attempt. */
  lemma ProceedStaysOn(w: World, exchange: Exchange)
    ensures Proceed(w, exchange).activity.Idle?
            || (!w.activity.Idle? && Proceed(w, exchange).activity.id == w.activity.id)
    ensures !w.activity.Working? ==> !Proceed(w, exchange).activity.Working?
  {
    hide WorkOn, ConfirmOn, FailOn, StopTask, AskBranch, FetchBranch, DeferRetry;
    if w.activity.Stopping? {
      StopStaysOn(w, w.activity.id, w.activity.reason, w.activity.rest);
    } else if !w.activity.Idle? && w.activity.id in w.attempts {
      var id := w.activity.id;
      match w.activity {
        case Working(_, to, at) => WorkStaysOn(w, id, to, at, if exchange.Defers? then exchange.until else 0);
        case Confirming(_, stage, recovering) => OthersStayOn(w, id, stage, recovering, INTERNAL_ERROR);
        case Failing(_, reason) => OthersStayOn(w, id, Settle, false, reason);
        case _ => OthersStayOn(w, id, Settle, false, INTERNAL_ERROR);
      }
    }
  }

  lemma OnlyWorkersWork(w: World, exchange: Exchange)
    requires !w.activity.Working?
    ensures !Proceed(w, exchange).activity.Working?
  {
    hide Proceed;
    ProceedStaysOn(w, exchange);
  }

  lemma ProceedTouchesItsOwn(w: World, exchange: Exchange, id: AttemptId)
    requires id in w.attempts && !ActiveOn(w, id)
    ensures id in Proceed(w, exchange).attempts && Proceed(w, exchange).attempts[id] == w.attempts[id]
  {
    hide WorkOn, ConfirmOn, FailOn, AskBranch, FetchBranch, DeferRetry, Follows;
    if !w.activity.Idle? && w.activity.id in w.attempts {
      var other := w.activity.id;
      OthersTouch(w, other, if exchange.Defers? then exchange.until else 0);
      match w.activity {
        case Working(_, to, at) => WorkTouches(w, other, to, at);
        case Confirming(_, stage, recovering) => ConfirmTouches(w, other, stage, recovering);
        case Failing(_, reason) => FailTouches(w, other, reason);
        case Stopping(_, reason, rest) => StopFrame(w, other, reason, rest);
        case _ =>
      }
    }
  }

  /** Nothing that anybody does changes a dormant attempt. */
  lemma DormantStep(w: World, step: Step, id: AttemptId)
    requires Dormant(w, id)
    ensures Dormant(Take(w, step), id) && Take(w, step).attempts[id] == w.attempts[id]
  {
    hide Proceed, Choose, Withheld, BranchHeld;
    if step.Go? {
      ProceedStaysOn(w, step.exchange);
      ProceedTouchesItsOwn(w, step.exchange, id);
    }
  }

  /** In no run does a dormant attempt ever change again. */
  lemma {:induction false} DormantForever(w: World, run: seq<Step>, id: AttemptId)
    requires Dormant(w, id)
    ensures Dormant(Runs(w, run), id) && Runs(w, run).attempts[id] == w.attempts[id]
    decreases |run|
  {
    hide Take;
    if run != [] {
      DormantForever(w, run[..|run| - 1], id);
      DormantStep(Runs(w, run[..|run| - 1]), run[|run| - 1], id);
    }
  }

  /** While an attempt owns its branch, no other is opened there. */
  lemma HolderKeepsOthersOut(w: World, step: Step, id: AttemptId)
    requires id in w.attempts && w.attempts[id].Holds()
    ensures forall j | j in Take(w, step).attempts && Take(w, step).attempts[j].branch == w.attempts[id].branch ::
      j in w.attempts
  {
    hide Proceed, Choose, Withheld;
    if step.Go? {
      ProceedFrame(w, step.exchange);
    }
  }

  /** A locked branch is closed: the attempt never changes and no attempt is ever opened there again. */
  lemma {:induction false} LockedForever(w: World, run: seq<Step>, id: AttemptId)
    requires Locked(w, id)
    ensures var v := Runs(w, run);
            && Locked(v, id) && v.attempts[id] == w.attempts[id]
            && forall j | j in v.attempts && v.attempts[j].branch == w.attempts[id].branch :: j in w.attempts
    decreases |run|
  {
    hide Take;
    if run != [] {
      var v, step := Runs(w, run[..|run| - 1]), run[|run| - 1];
      LockedForever(w, run[..|run| - 1], id);
      DormantStep(v, step, id);
      StepFrame(v, step);
      HolderKeepsOthersOut(v, step, id);
      NobodyElseHome(w, v, Take(v, step), w.attempts[id].branch);
    }
  }

  lemma NobodyElseHome(w: World, v: World, u: World, branch: Branch)
    requires forall j | j in v.attempts && v.attempts[j].branch == branch :: j in w.attempts
    requires forall j | j in u.attempts && u.attempts[j].branch == branch :: j in v.attempts
    requires forall j | j in v.attempts :: j in u.attempts && Follows(v.attempts[j], u.attempts[j])
    ensures forall j | j in u.attempts && u.attempts[j].branch == branch :: j in w.attempts
  {
  }

  /** The points before the push is pending. */
  predicate BeforeThePush(at: Point) {
    at.Opened? || at.AskingHead? || at.Fetching? || at.Applying? || at.Checking? || at.Preparing? || at.Intending?
  }

  /**
   * A crash locks the branch exactly when it falls anywhere before the push is pending, a failure on the way to
   * being recorded included, or between recording that the remote confirmed the push and recording it as
   * published.
   */
  lemma CrashLocksExactly(w: World, id: AttemptId)
    requires Inv(w) && ActiveOn(w, id) && id in w.attempts
    ensures Locked(Take(w, Crash), id) <==>
      || (w.activity.Working? && BeforeThePush(w.activity.at))
      || (w.activity.Confirming? && w.activity.stage.Publish?)
      || ((w.activity.Failing? || w.activity.Stopping?)
          && w.attempts[id].Holds() && !w.attempts[id].AwaitsResolution())
  {
    hide Durable;
    AttemptOf(w, id);
  }

  /** One recovery of this attempt, every exchange of which succeeds. */
  predicate Recovers(run: seq<Step>, id: AttemptId) {
    run != [] && run[0] == StartRecovery(id) && Steady(run[1..])
  }

  /** Finding the candidate on its branch: the first half of a recovery. */
  lemma RecoveryFinds(w: World, id: AttemptId) returns (v: World)
    requires Inv(w) && w.activity.Idle? && id in w.attempts && w.attempts[id].AwaitsResolution()
    requires w.Head(w.attempts[id].branch) == w.attempts[id].candidate
    ensures v == Take(Take(Take(w, StartRecovery(id)), Go(Succeeds)), Go(Succeeds))
    ensures v == w.Entered(Confirming(id, Resume, true))
  {
    AttemptOf(w, id);
    var w1 := Take(w, StartRecovery(id));
    assert w1 == w.Entered(AskingBranch(id));
    var w2 := Take(w1, Go(Succeeds));
    assert w2 == w.Entered(FetchingBranch(id));
    v := Take(w2, Go(Succeeds));
  }

  /** The world with this attempt published, what was observed recorded beside it. */
  function Confirmed(w: World, id: AttemptId): World
    requires id in w.attempts
  {
    var a := w.attempts[id];
    w.(attempts := w.attempts[id := a.(state := PUBLISHED, observed := a.candidate, retryNotBefore := None)])
  }

  lemma ResumeAndObserve(w: World, id: AttemptId) returns (v: World)
    requires id in w.attempts && w.activity == Confirming(id, Resume, true) && w.attempts[id].AwaitsResolution()
    requires Coherent(w.attempts[id].state)
    ensures v == Take(Take(w, Go(Succeeds)), Go(Succeeds))
    ensures v.activity == Confirming(id, Confirm, true) && id in v.attempts && v.attempts[id].state.status.PushPending?
    ensures Confirmed(v, id) == Confirmed(w.Entered(v.activity), id) && v.policy == w.policy
    ensures v.attempts[id].branch == w.attempts[id].branch && v.attempts[id].package == w.attempts[id].package
  {
    var w1 := Take(w, Go(Succeeds));
    assert w1.activity == Confirming(id, Observe, true) && w1.attempts[id].state.status.PushPending?;
    v := Take(w1, Go(Succeeds));
  }

  lemma ConfirmAndPublish(w: World, id: AttemptId) returns (v: World)
    requires id in w.attempts && w.activity == Confirming(id, Confirm, true)
    requires w.attempts[id].state.status.PushPending? && w.attempts[id].observed == w.attempts[id].candidate
    ensures v == Take(Take(Take(w, Go(Succeeds)), Go(Succeeds)), Go(Succeeds))
    ensures v == Confirmed(w, id).Entered(v.activity)
    ensures v.activity == if w.attempts[id].branch != w.policy.target then Idle
                          else Confirming(id, Mark(w.attempts[id].package.tasks), true)
  {
    var w1 := Take(w, Go(Succeeds));
    assert w1.activity == Confirming(id, Publish, true) && w1.attempts[id].state == State(RemoteConfirmed, None, None);
    var w2 := Take(w1, Go(Succeeds));
    assert w2 == Confirmed(w, id).Entered(Confirming(id, Settle, true));
    v := Take(w2, Go(Succeeds));
  }

  lemma ThreeMore(w: World, run: seq<Step>, a: Step, b: Step, c: Step)
    ensures Runs(w, run + [a] + [b] + [c]) == Take(Take(Take(Runs(w, run), a), b), c)
  {
    RunsOneMore(w, run, a);
    RunsOneMore(w, run + [a], b);
    RunsOneMore(w, run + [a] + [b], c);
  }

  /**
   * A push that landed but was not recorded is discovered and published without pushing again. If it went to
   * the target, its package's tasks are marked, as far as none of them is blocked or ended.
   */
  lemma RecoveryDiscovers(w: World, id: AttemptId) returns (run: seq<Step>)
    requires Inv(w) && w.activity.Idle? && id in w.attempts && w.attempts[id].AwaitsResolution()
    requires w.Head(w.attempts[id].branch) == w.attempts[id].candidate
    ensures Recovers(run, id)
    ensures var v, a := Runs(w, run), w.attempts[id];
            v == Confirmed(w, id).(tasks := if a.branch == w.policy.target then Marked(w.tasks, a.package.tasks) else w.tasks)
  {
    hide Take, Inv, Runs;
    var start, go := StartRecovery(id), Go(Succeeds);
    var found := RecoveryFinds(w, id);
    PendingIsCoherent(w, id);
    var observed := ResumeAndObserve(found, id);
    ObservedIsCandidate(found, id);
    var done := ConfirmAndPublish(observed, id);
    NoRun(w);
    ThreeMore(w, [], start, go, go);
    ThreeMore(w, [] + [start] + [go] + [go], go, go, go);
    var six := [] + [start] + [go] + [go] + [go] + [go] + [go];
    RunsOneMore(w, six, go);
    RunsOneMore(w, six + [go], go);
    run := six + [go] + [go];
    assert Runs(w, run) == done;
    if w.attempts[id].branch == w.policy.target {
      var marking := Marking(done, id, w.attempts[id].package.tasks, true);
      RunsAppend(w, run, marking);
      run := run + marking;
    }
  }

  lemma NoRun(w: World)
    ensures Runs(w, []) == w
  {
  }

  lemma PendingIsCoherent(w: World, id: AttemptId)
    requires Inv(w) && id in w.attempts
    ensures Coherent(w.attempts[id].state)
  {
    AttemptOf(w, id);
  }

  lemma ObservedIsCandidate(w: World, id: AttemptId)
    requires id in w.attempts && w.activity == Confirming(id, Resume, true) && w.attempts[id].AwaitsResolution()
    requires Coherent(w.attempts[id].state)
    ensures var v := Take(Take(w, Go(Succeeds)), Go(Succeeds));
            id in v.attempts && v.attempts[id].observed == v.attempts[id].candidate
  {
  }

  /** What recovery leaves of an attempt whose candidate is not at the head of its branch. */
  function Unlanded(w: World, id: AttemptId): Attempt
    requires id in w.attempts
  {
    var a := w.attempts[id];
    var head := w.Head(a.branch);
    if head.None? && a.branch == w.policy.target then a
    else if a.retryNotBefore.Some? && (head.None? || head == a.parent) then a
    else FailedPending(a)
  }

  /** A pending attempt after a failure: blocked with its reason, unless it is already or has failed too often. */
  function FailedPending(a: Attempt): Attempt {
    if a.state.status.Blocked? || a.failures >= MAX_FAILURES then a
    else
      a.(state := State(Blocked, Some(INTERNAL_ERROR), Some(PushPending)), retryNotBefore := None,
         failures := a.failures + 1)
  }

  /** The world with the attempt changed so, and its tasks blocked if that blocked it. */
  function Left(w: World, id: AttemptId, a: Attempt): World
    requires id in w.attempts
  {
    w.(attempts := w.attempts[id := a],
       tasks := if a == w.attempts[id] then w.tasks else Stopped(w.tasks, a.package.tasks, INTERNAL_ERROR))
  }

  lemma FailingPending(w: World, id: AttemptId) returns (run: seq<Step>)
    requires id in w.attempts && w.attempts[id].AwaitsResolution() && w.activity == Failing(id, INTERNAL_ERROR)
    ensures Steady(run) && Runs(w, run) == Left(w, id, FailedPending(w.attempts[id])).Entered(Idle)
  {
    hide Runs, Stopped;
    var go, a := Go(Succeeds), w.attempts[id];
    OneStep(w, go);
    run := [go];
    if !a.state.status.Blocked? && a.failures < MAX_FAILURES {
      var v := Take(w, go);
      assert v == w.(attempts := w.attempts[id := FailedPending(a)]).Entered(Stopping(id, INTERNAL_ERROR, a.package.tasks));
      var stopping := Stops(v, id, INTERNAL_ERROR, a.package.tasks);
      RunsAppend(w, run, stopping);
      run := run + stopping;
    } else {
      assert w.attempts[id := a] == w.attempts;
    }
  }

  lemma RecoveryLooks(w: World, id: AttemptId) returns (v: World)
    requires Inv(w) && w.activity.Idle? && id in w.attempts && w.attempts[id].AwaitsResolution()
    requires w.Head(w.attempts[id].branch) != w.attempts[id].candidate
    ensures v == Take(Take(w, StartRecovery(id)), Go(Succeeds))
    ensures v == w.Entered(v.activity)
    ensures v.activity == FetchingBranch(id) || v.activity == Failing(id, INTERNAL_ERROR) || v.activity == Idle
    ensures v.activity == Idle ==> Unlanded(w, id) == w.attempts[id]
    ensures v.activity.Failing? ==> Unlanded(w, id) == FailedPending(w.attempts[id])
    ensures v.activity.FetchingBranch? ==>
      w.attempts[id].branch == w.policy.target || w.Head(w.attempts[id].branch).Some?
  {
    AttemptOf(w, id);
    var w1 := Take(w, StartRecovery(id));
    assert w1 == w.Entered(AskingBranch(id));
    v := Take(w1, Go(Succeeds));
  }

  lemma RecoveryCompares(w: World, id: AttemptId) returns (v: World)
    requires Inv(w) && w.activity == FetchingBranch(id) && w.attempts[id].AwaitsResolution()
    requires w.Head(w.attempts[id].branch) != w.attempts[id].candidate
    requires w.attempts[id].branch == w.policy.target || w.Head(w.attempts[id].branch).Some?
    ensures v == Take(w, Go(Succeeds)) && v == w.Entered(v.activity)
    ensures v.activity == Failing(id, INTERNAL_ERROR) || v.activity == Idle
    ensures v.activity == Idle ==> Unlanded(w, id) == w.attempts[id]
    ensures v.activity.Failing? ==> Unlanded(w, id) == FailedPending(w.attempts[id])
  {
    AttemptOf(w, id);
    v := Take(w, Go(Succeeds));
  }

  lemma UnlandedIsDurable(w: World, id: AttemptId, activity: Activity)
    requires id in w.attempts
    ensures Unlanded(w.Entered(activity), id) == Unlanded(w, id)
  {
  }

  /**
   * A push that has not landed is never repeated. A recorded backoff survives while the branch is still where
   * the push expects it; any other find blocks the attempt where it stands and its package's tasks with it,
   * and one that was blocked already keeps its reason.
   */
  lemma RecoveryOfUnlanded(w: World, id: AttemptId) returns (run: seq<Step>)
    requires Inv(w) && w.activity.Idle? && id in w.attempts && w.attempts[id].AwaitsResolution()
    requires w.Head(w.attempts[id].branch) != w.attempts[id].candidate
    ensures Recovers(run, id)
    ensures Runs(w, run) == Left(w, id, Unlanded(w, id))
  {
    hide Take, Inv, Runs, Unlanded, FailedPending, Stopped;
    var start, go := StartRecovery(id), Go(Succeeds);
    OneStep(w, start);
    RunsOneMore(w, [start], go);
    run := [start] + [go];
    var looked := RecoveryLooks(w, id);
    StepKeeps(w, start);
    StepKeeps(Take(w, start), go);
    UnlandedIsDurable(w, id, looked.activity);
    var found := looked;
    if looked.activity.FetchingBranch? {
      found := RecoveryCompares(looked, id);
      RunsOneMore(w, run, go);
      run := run + [go];
    }
    assert Runs(w, run) == found == w.Entered(found.activity);
    if found.activity.Failing? {
      var failing := FailingPending(found, id);
      RunsAppend(w, run, failing);
      run := run + failing;
      assert Runs(w, run) == Left(w, id, Unlanded(w, id));
    } else {
      NothingLeftBehind(w, id);
    }
  }

  lemma NothingLeftBehind(w: World, id: AttemptId)
    requires id in w.attempts
    ensures Left(w, id, w.attempts[id]) == w
  {
    assert w.attempts[id := w.attempts[id]] == w.attempts;
  }

  /** Putting a transmitted push off keeps its branch owned and its outcome to be resolved, even where it is refused. */
  lemma DeferralKeepsTheBranch(w: World, id: AttemptId, to: Publication, at: Point, until: nat)
    requires Inv(w) && w.activity == Working(id, to, at) && MayDefer(at)
    ensures var v := Take(w, Go(Defers(until)));
            && id in v.attempts && v.attempts[id].Holds() && v.attempts[id].AwaitsResolution()
            && v.attempts[id].branch == w.attempts[id].branch
            && if w.attempts[id].failures < MAX_FAILURES then
                 && v.activity.Idle? && v.attempts[id].retryNotBefore == Some(until)
                 && v.attempts[id].failures == w.attempts[id].failures + 1
               else v == w.Entered(Failing(id, INTERNAL_ERROR))
  {
  }

  /** A block gives way only to a confirmation, of a candidate that the remote has shown on its branch. */
  lemma BlockedStep(w: World, step: Step, id: AttemptId)
    requires Inv(w) && id in w.attempts && w.attempts[id].state.status.Blocked?
    ensures id in Take(w, step).attempts && Take(w, step).attempts[id].candidate == w.attempts[id].candidate
    ensures var a := w.attempts[id];
            Take(w, step).attempts[id].state == a.state
            || (a.candidate.Some? && Holding(a.branch, a.candidate.value) in w.held)
  {
    hide Durable, Proceed, Choose, Withheld, BranchHeld;
    StepFrame(w, step);
    if step.Go? {
      if ActiveOn(w, id) {
        BlockedProceeds(w, step.exchange, id);
      } else {
        ProceedTouchesItsOwn(w, step.exchange, id);
      }
    }
  }

  lemma BlockedProceeds(w: World, exchange: Exchange, id: AttemptId)
    requires Inv(w) && id in w.attempts && w.attempts[id].state.status.Blocked? && ActiveOn(w, id)
    ensures var a, v := w.attempts[id], Proceed(w, exchange);
            && id in v.attempts && v.attempts[id].candidate == a.candidate
            && (v.attempts[id].state == a.state
                || (a.candidate.Some? && Holding(a.branch, a.candidate.value) in w.held))
  {
    hide Durable, WorkOn, ConfirmOn, AskBranch, FetchBranch, DeferRetry;
    BlockedIsNotWorkedOn(w, id);
    OthersTouch(w, id, 0);
    match w.activity {
      case Confirming(_, stage, recovering) => ConfirmKeepsCandidate(w, id, stage, recovering);
      case Failing(_, reason) => FailKeepsCandidate(w, id, reason);
      case Stopping(_, reason, rest) => StopFrame(w, id, reason, rest);
      case AskingBranch(_) => LookingKeepsAttempts(w, id);
      case FetchingBranch(_) => LookingKeepsAttempts(w, id);
      case _ =>
    }
  }

  lemma BlockedIsNotWorkedOn(w: World, id: AttemptId)
    requires Inv(w) && id in w.attempts && w.attempts[id].state.status.Blocked? && ActiveOn(w, id)
    ensures !w.activity.Working?
  {
    hide Durable;
  }

  lemma LookingKeepsAttempts(w: World, id: AttemptId)
    requires id in w.attempts
    ensures AskBranch(w, id).attempts == w.attempts && FetchBranch(w, id).attempts == w.attempts
  {
  }

  /** An attempt keeps the reason it stopped for in every run in which the remote never shows its candidate. */
  lemma {:induction false} BlockedKeepsItsReason(w: World, run: seq<Step>, id: AttemptId)
    requires Inv(w) && id in w.attempts && w.attempts[id].state.status.Blocked?
    requires w.attempts[id].candidate.Some? ==>
      Holding(w.attempts[id].branch, w.attempts[id].candidate.value) !in Runs(w, run).held
    ensures id in Runs(w, run).attempts && Runs(w, run).attempts[id].state == w.attempts[id].state
    ensures Runs(w, run).attempts[id].candidate == w.attempts[id].candidate
    ensures Runs(w, run).attempts[id].branch == w.attempts[id].branch
    decreases |run|
  {
    hide Inv, Take;
    if run != [] {
      var init, step := run[..|run| - 1], run[|run| - 1];
      var v := Runs(w, init);
      StepFrame(v, step);
      BlockedKeepsItsReason(w, init, id);
      RunKeepsInv(w, init);
      BlockedStep(v, step, id);
    }
  }

  lemma ConfirmKeepsCandidate(w: World, id: AttemptId, stage: Stage, recovering: bool)
    requires id in w.attempts
    ensures id in ConfirmOn(w, id, stage, recovering).attempts
    ensures ConfirmOn(w, id, stage, recovering).attempts[id].candidate == w.attempts[id].candidate
  {
  }

  lemma FailKeepsCandidate(w: World, id: AttemptId, reason: StateReason)
    requires id in w.attempts
    ensures id in FailOn(w, id, reason).attempts
    ensures FailOn(w, id, reason).attempts[id].candidate == w.attempts[id].candidate
  {
  }
}
