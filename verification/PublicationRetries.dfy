/** The retry budget of an attempt: what spends it, that nothing gives it back, and how failures are recorded. */
module PublicationRetries {
  import opened Wrappers
  import opened TaskLifecycle
  import opened RepositoryPolicies
  import opened Publications
  import opened PublicationSafety
  import opened PublicationLaws
  import opened PublicationTasks
  import opened PublicationRecovery

  /** The failures recorded of an attempt so far. */
  function Failures(w: World, id: AttemptId): nat {
    if id in w.attempts then w.attempts[id].failures else 0
  }

  /** The points between making a push pending and reading its branch. */
  predicate Transmitting(at: Point) {
    at.Leasing? || at.Pushing? || at.Sent?
  }

  /** The step puts a transmitted push off. */
  predicate PutsOff(w: World, step: Step, id: AttemptId) {
    && step.Go? && step.exchange.Defers? && w.activity.Working? && w.activity.id == id && Transmitting(w.activity.at)
    && id in w.attempts && w.attempts[id].state.status == PushPending && w.attempts[id].failures < 255
  }

  /** The step records a failure, of an attempt that has not ended and is not blocked. */
  predicate RecordsFailure(w: World, step: Step, id: AttemptId) {
    && step == Go(Succeeds) && w.activity.Failing? && w.activity.id == id
    && id in w.attempts && w.attempts[id].state.status !in {Published, Cancelled, Superseded, Blocked}
    && w.attempts[id].failures < 255
  }

  /**
   * Putting a push off costs one failure and sets the time before which it is not tried again. Nothing else
   * changes: not the package, branch, state, candidate or parent, nor what was observed.
   */
  lemma DeferralCounts(w: World, id: AttemptId, to: Publication, at: Point, until: nat)
    requires Inv(w) && w.activity == Working(id, to, at) && Transmitting(at) && w.attempts[id].failures < 255
    ensures var v, a := Take(w, Go(Defers(until))), w.attempts[id];
            && id in v.attempts && v.attempts[id].failures == a.failures + 1
            && v.attempts[id].retryNotBefore == Some(until)
            && v.attempts[id].package == a.package && v.attempts[id].branch == a.branch && v.attempts[id].state == a.state
            && v.attempts[id].candidate == a.candidate && v.attempts[id].parent == a.parent
            && v.attempts[id].observed == a.observed
            && v == w.(attempts := w.attempts[id := v.attempts[id]], activity := Idle)
  {
    hide Durable;
  }

  /** After 255 failures a push is put off no more, and the refusal, which would be one too many, is not recorded either. */
  lemma DeferralsEnd(w: World, id: AttemptId, to: Publication, at: Point, until: nat)
    requires Inv(w) && w.activity == Working(id, to, at) && Transmitting(at) && w.attempts[id].failures >= 255
    ensures Runs(w, [Go(Defers(until))] + [Go(Succeeds)]) == w.Entered(Idle)
  {
    hide Durable, Runs;
    OneStep(w, Go(Defers(until)));
    RunsOneMore(w, [Go(Defers(until))], Go(Succeeds));
    assert Take(w, Go(Defers(until))) == w.Entered(Failing(id, INTERNAL_ERROR));
  }

  /** Only a transmitted push can be put off. */
  lemma OnlyTransmittedIsPutOff(w: World, until: nat)
    requires w.activity.Working? && !Transmitting(w.activity.at) && w.activity.id in w.attempts
    ensures Take(w, Go(Defers(until))) == w
  {
  }

  // ----------------------------------------------------- what counts a failure

  lemma AdvanceCountsNothing(w: World, id: AttemptId, target: TaskStatus, reason: Option<StateReason>)
    requires id in w.attempts && AdvanceAttempt(w, id, target, reason).Some?
    ensures Failures(AdvanceAttempt(w, id, target, reason).value, id) == Failures(w, id)
  {
  }

  lemma AdvanceToCountsNothing(w: World, id: AttemptId, target: TaskStatus, next: Activity, refused: Activity)
    requires id in w.attempts
    ensures Failures(AdvanceTo(w, id, target, next, refused), id) == Failures(w, id)
  {
    hide Advance;
  }

  lemma WorkCountsNothing(w: World, id: AttemptId, to: Publication, at: Point)
    requires id in w.attempts
    ensures Failures(WorkOn(w, id, to, at), id) == Failures(w, id)
  {
    hide AdvanceTo, Content;
    var failing := Failing(id, INTERNAL_ERROR);
    match at
    case Opened => AdvanceToCountsNothing(w, id, Reconciling, Working(id, to, AskingHead), failing);
    case Applying(parent) => AdvanceToCountsNothing(w, id, Verifying, Working(id, to, Checking(parent)), failing);
    case Checking(parent) => AdvanceToCountsNothing(w, id, CommitPrepared, Working(id, to, Preparing(parent)), failing);
    case Intending(parent) => AdvanceToCountsNothing(w, id, PushPending, Working(id, to, Leasing(parent)), failing);
    case _ =>
  }

  lemma ConfirmCountsNothing(w: World, id: AttemptId, stage: Stage, recovering: bool)
    requires id in w.attempts
    ensures Failures(ConfirmOn(w, id, stage, recovering), id) == Failures(w, id)
  {
    hide AdvanceTo, Advance;
    var refused := if recovering then Idle else Failing(id, INTERNAL_ERROR);
    match stage
    case Resume => AdvanceToCountsNothing(w, id, PushPending, Confirming(id, Observe, recovering), refused);
    case Confirm => AdvanceToCountsNothing(w, id, RemoteConfirmed, Confirming(id, Publish, recovering), refused);
    case Publish => AdvanceToCountsNothing(w, id, Published, Confirming(id, Settle, recovering), refused);
    case _ =>
  }

  lemma FailCountsOne(w: World, id: AttemptId, reason: StateReason)
    requires id in w.attempts
    ensures Failures(FailOn(w, id, reason), id) == Failures(w, id)
              + if w.attempts[id].state.status !in {Published, Cancelled, Superseded, Blocked} && w.attempts[id].failures < 255
                then 1 else 0
  {
    hide AdvanceAttempt;
    var a := w.attempts[id];
    var counted := w.(attempts := w.attempts[id := a.(failures := a.failures + 1)]);
    if AdvanceAttempt(counted, id, Blocked, Some(reason)).Some? {
      AdvanceCountsNothing(counted, id, Blocked, Some(reason));
    }
  }

  lemma OthersCount(w: World, id: AttemptId, until: nat)
    requires id in w.attempts
    ensures Failures(AskBranch(w, id), id) == Failures(w, id) && Failures(FetchBranch(w, id), id) == Failures(w, id)
    ensures Failures(DeferRetry(w, id, until), id) == Failures(w, id)
              + if w.attempts[id].state.status == PushPending && w.attempts[id].failures < 255 then 1 else 0
  {
  }

  lemma ProceedCounts(w: World, exchange: Exchange, id: AttemptId)
    ensures var step := Go(exchange);
            Failures(Proceed(w, exchange), id)
            == Failures(w, id) + if PutsOff(w, step, id) || RecordsFailure(w, step, id) then 1 else 0
  {
    hide WorkOn, ConfirmOn, FailOn, AskBranch, FetchBranch, DeferRetry, StopTask;
    if id !in w.attempts {
      ProceedOpensNothing(w, exchange);
    } else if !ActiveOn(w, id) {
      ProceedTouchesItsOwn(w, exchange, id);
    } else {
      OthersCount(w, id, if exchange.Defers? then exchange.until else 0);
      match w.activity {
        case Working(_, to, at) => WorkCountsNothing(w, id, to, at);
        case Confirming(_, stage, recovering) => ConfirmCountsNothing(w, id, stage, recovering);
        case Failing(_, reason) => FailCountsOne(w, id, reason);
        case Stopping(_, reason, rest) => StopFrame(w, id, reason, rest);
        case _ =>
      }
    }
  }

  lemma ProceedOpensNothing(w: World, exchange: Exchange)
    ensures Proceed(w, exchange).attempts.Keys == w.attempts.Keys
  {
    hide Proceed;
    ProceedFrame(w, exchange);
  }

  /** A step counts a failure of an attempt exactly when it puts its push off or records that it failed. */
  lemma StepCounts(w: World, step: Step, id: AttemptId)
    ensures Failures(Take(w, step), id)
            == Failures(w, id) + if PutsOff(w, step, id) || RecordsFailure(w, step, id) then 1 else 0
  {
    hide Proceed, Choose, Withheld, BranchHeld, PutsOff, RecordsFailure;
    if step.Go? {
      ProceedCounts(w, step.exchange, id);
    } else {
      OnlyWorkCounts(w, step, id);
      if step.Command? {
        CommandFrame(w, step.task, step.request);
      }
    }
  }

  lemma OnlyWorkCounts(w: World, step: Step, id: AttemptId)
    requires !step.Go?
    ensures !PutsOff(w, step, id) && !RecordsFailure(w, step, id)
  {
  }

  /** How often a run puts the attempt off or records its failure. */
  function Spent(w: World, run: seq<Step>, id: AttemptId): nat {
    if run == [] then 0
    else
      var before, last := run[..|run| - 1], run[|run| - 1];
      Spent(w, before, id) + if PutsOff(Runs(w, before), last, id) || RecordsFailure(Runs(w, before), last, id) then 1 else 0
  }

  /**
   * Over a whole run, crashes and recoveries included, the failures of an attempt are those it started with and
   * one for every deferral and every recorded failure. So no restart restores a budget that was spent, and
   * there are never more than 255.
   */
  lemma {:induction false} BudgetIsSpentForGood(w: World, run: seq<Step>, id: AttemptId)
    ensures Failures(Runs(w, run), id) == Failures(w, id) + Spent(w, run, id)
    ensures Failures(w, id) <= 255 ==> Failures(Runs(w, run), id) <= 255
    decreases |run|
  {
    hide Take, PutsOff, RecordsFailure, Failures;
    if run != [] {
      var before, last := run[..|run| - 1], run[|run| - 1];
      BudgetIsSpentForGood(w, before, id);
      StepCounts(Runs(w, before), last, id);
      if PutsOff(Runs(w, before), last, id) || RecordsFailure(Runs(w, before), last, id) {
        SpendsWithinBudget(Runs(w, before), last, id);
      }
    }
  }

  lemma SpendsWithinBudget(w: World, step: Step, id: AttemptId)
    requires PutsOff(w, step, id) || RecordsFailure(w, step, id)
    ensures Failures(w, id) < 255
  {
  }

  // ------------------------------------------------- how a failure is recorded

  /** A worker, or its confirmation, that has something to lose by failing. */
  predicate MayFail(w: World, id: AttemptId) {
    && id in w.attempts && (w.activity.Working? || (w.activity.Confirming? && !w.activity.recovering)) && w.activity.id == id
    && w.attempts[id].state.status !in {Published, Cancelled, Superseded, Blocked} && w.attempts[id].failures < 255
  }

  /**
   * When an exchange of a worker fails for a reason, and nothing else goes wrong, the attempt is blocked where
   * it stood, for that reason and one failure the poorer, and so are its package's tasks.
   */
  lemma FailureIsRecorded(w: World, id: AttemptId, reason: StateReason) returns (run: seq<Step>)
    requires MayFail(w, id)
    ensures run != [] && run[0] == Go(Fails(reason)) && Steady(run[1..])
    ensures var a := w.attempts[id];
            Runs(w, run) ==
              w.(attempts := w.attempts[id :=
                   a.(state := State(Blocked, Some(reason), Some(a.state.status)), retryNotBefore := None,
                      failures := a.failures + 1)],
                 tasks := Stopped(w.tasks, a.package.tasks, reason),
                 activity := Idle)
  {
    hide Runs, Stopped;
    var a := w.attempts[id];
    var first, go := Go(Fails(reason)), Go(Succeeds);
    var failed := w.Entered(Failing(id, reason));
    OneStep(w, first);
    assert Take(w, first) == failed;
    RunsOneMore(w, [first], go);
    var blocked := a.(state := State(Blocked, Some(reason), Some(a.state.status)), retryNotBefore := None, failures := a.failures + 1);
    var counted := w.(attempts := w.attempts[id := blocked]).Entered(Stopping(id, reason, a.package.tasks));
    FailingBlocks(failed, id, reason);
    assert Take(failed, go) == counted;
    var stopping := Stops(counted, id, reason, a.package.tasks);
    RunsAppend(w, [first] + [go], stopping);
    run := [first] + [go] + stopping;
    assert run[1..] == [go] + stopping;
  }

  lemma FailingBlocks(w: World, id: AttemptId, reason: StateReason)
    requires id in w.attempts && w.activity == Failing(id, reason)
    requires w.attempts[id].state.status !in {Published, Cancelled, Superseded, Blocked} && w.attempts[id].failures < 255
    ensures var a := w.attempts[id];
            Take(w, Go(Succeeds)) ==
              w.(attempts := w.attempts[id :=
                   a.(state := State(Blocked, Some(reason), Some(a.state.status)), retryNotBefore := None,
                      failures := a.failures + 1)])
               .Entered(Stopping(id, reason, a.package.tasks))
  {
  }

  /** A failure while recovering, or while recording a failure, leaves everything durable as it was. */
  lemma InterruptionsLeaveAll(w: World, exchange: Exchange)
    requires w.activity.AskingBranch? || w.activity.FetchingBranch? || w.activity.Failing? || w.activity.Stopping?
             || (w.activity.Confirming? && w.activity.recovering)
    requires !exchange.Succeeds?
    ensures Take(w, Go(exchange)) == w.Entered(Idle)
  {
  }
}
