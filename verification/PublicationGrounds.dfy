/** What candidates are built on: in every run, a commit the remote really had where it should be. */
module PublicationGrounds {
  import opened Wrappers
  import opened TaskLifecycle
  import opened RepositoryPolicies
  import opened Publications
  import opened PublicationSafety
  import opened PublicationLaws

  /** The remote had this commit at the head of the branch itself, or of one of the branches it may start from. */
  ghost predicate HeldOn(w: World, branch: Branch, bases: set<Branch>, commit: Commit) {
    Holding(branch, commit) in w.held || exists b :: b in bases && Holding(b, commit) in w.held
  }

  ghost predicate ParentsGrounded(w: World, bases: set<Branch>) {
    forall id | id in w.attempts && w.attempts[id].parent.Some? ::
      HeldOn(w, w.attempts[id].branch, bases, w.attempts[id].parent.value)
  }

  ghost predicate PointGrounded(w: World, to: Publication, at: Point, bases: set<Branch>) {
    && to.base in bases
    && match at
       case Fetching(from) => from == to.branch || from in bases
       case Applying(parent) => HeldOn(w, to.branch, bases, parent)
       case Checking(parent) => HeldOn(w, to.branch, bases, parent)
       case Preparing(parent) => HeldOn(w, to.branch, bases, parent)
       case _ => true
  }

  /** `bases` contains every branch that was ever the policy's target. */
  ghost predicate Grounded(w: World, bases: set<Branch>) {
    && w.policy.target in bases && ParentsGrounded(w, bases)
    && (w.activity.Working? ==> PointGrounded(w, w.activity.publication, w.activity.at, bases))
  }

  lemma HeldOnGrows(w: World, v: World, branch: Branch, bases: set<Branch>, commit: Commit)
    requires w.held <= v.held && HeldOn(w, branch, bases, commit)
    ensures HeldOn(v, branch, bases, commit)
  {
  }

  /** Parents stay what they were, and what is grounded stays grounded. */
  lemma FrameKeepsGrounds(w: World, v: World, bases: set<Branch>)
    requires ParentsGrounded(w, bases) && w.held <= v.held
    requires forall id | id in v.attempts ::
      v.attempts[id].parent.None?
      || (id in w.attempts && v.attempts[id].parent == w.attempts[id].parent && v.attempts[id].branch == w.attempts[id].branch)
    ensures ParentsGrounded(v, bases)
  {
    hide HeldOn;
    forall id | id in v.attempts && v.attempts[id].parent.Some?
      ensures HeldOn(v, v.attempts[id].branch, bases, v.attempts[id].parent.value)
    {
      HeldOnGrows(w, v, w.attempts[id].branch, bases, w.attempts[id].parent.value);
    }
  }

  predicate SameParents(w: World, v: World) {
    && v.attempts.Keys == w.attempts.Keys
    && forall id | id in w.attempts ::
         v.attempts[id].parent == w.attempts[id].parent && v.attempts[id].branch == w.attempts[id].branch
  }

  lemma AdvanceKeepsParents(w: World, id: AttemptId, target: TaskStatus, reason: Option<StateReason>)
    requires id in w.attempts && AdvanceAttempt(w, id, target, reason).Some?
    ensures SameParents(w, AdvanceAttempt(w, id, target, reason).value)
  {
  }

  lemma AdvanceToKeepsParents(w: World, id: AttemptId, target: TaskStatus, next: Activity, refused: Activity)
    requires id in w.attempts
    ensures var v := AdvanceTo(w, id, target, next, refused);
            SameParents(w, v) && (v.activity == next || v.activity == refused)
  {
    hide AdvanceAttempt;
    if AdvanceAttempt(w, id, target, None).Some? {
      AdvanceKeepsParents(w, id, target, None);
    }
  }

  lemma FailKeepsParents(w: World, id: AttemptId, reason: StateReason)
    requires id in w.attempts
    ensures SameParents(w, FailOn(w, id, reason)) && !FailOn(w, id, reason).activity.Working?
  {
    hide AdvanceAttempt;
    var counted := w.(attempts := w.attempts[id := w.attempts[id].(failures := w.attempts[id].failures + 1)]);
    if AdvanceAttempt(counted, id, Blocked, Some(reason)).Some? {
      AdvanceKeepsParents(counted, id, Blocked, Some(reason));
    }
  }

  lemma ConfirmKeepsParents(w: World, id: AttemptId, stage: Stage, recovering: bool)
    requires id in w.attempts
    ensures SameParents(w, ConfirmOn(w, id, stage, recovering))
    ensures !ConfirmOn(w, id, stage, recovering).activity.Working?
  {
    hide AdvanceTo;
    var refused := if recovering then Idle else Failing(id, INTERNAL_ERROR);
    match stage
    case Resume => AdvanceToKeepsParents(w, id, PushPending, Confirming(id, Observe, recovering), refused);
    case Confirm => AdvanceToKeepsParents(w, id, RemoteConfirmed, Confirming(id, Publish, recovering), refused);
    case Publish => AdvanceToKeepsParents(w, id, Published, Confirming(id, Settle, recovering), refused);
    case _ =>
  }

  /** A parent that becomes durable was grounded when it was fetched. */
  lemma PreparingStaysGrounded(w: World, id: AttemptId, to: Publication, parent: Commit, bases: set<Branch>)
    requires Inv(w) && Grounded(w, bases) && w.activity == Working(id, to, Preparing(parent))
    ensures ParentsGrounded(WorkOn(w, id, to, Preparing(parent)), bases)
  {
    hide HeldOn, Durable, Content;
    var v := WorkOn(w, id, to, Preparing(parent));
    forall i | i in v.attempts && v.attempts[i].parent.Some?
      ensures HeldOn(v, v.attempts[i].branch, bases, v.attempts[i].parent.value)
    {
      HeldOnSame(w, v, w.attempts[i].branch, bases, v.attempts[i].parent.value);
    }
  }

  lemma WorkKeepsParents(w: World, id: AttemptId, to: Publication, at: Point)
    requires id in w.attempts && !at.Preparing?
    ensures SameParents(w, WorkOn(w, id, to, at))
  {
    hide AdvanceTo, Content;
    var failing := Failing(id, INTERNAL_ERROR);
    match at
    case Opened => AdvanceToKeepsParents(w, id, Reconciling, Working(id, to, AskingHead), failing);
    case Applying(parent) => AdvanceToKeepsParents(w, id, Verifying, Working(id, to, Checking(parent)), failing);
    case Checking(parent) => AdvanceToKeepsParents(w, id, CommitPrepared, Working(id, to, Preparing(parent)), failing);
    case Intending(parent) => AdvanceToKeepsParents(w, id, PushPending, Working(id, to, Leasing(parent)), failing);
    case _ =>
  }

  /** Where the worker goes next is grounded: what it fetched was the head it was fetched from. */
  lemma NextPointGrounded(w: World, id: AttemptId, to: Publication, at: Point, bases: set<Branch>)
    requires RemoteRecorded(w) && id in w.attempts && PointGrounded(w, to, at, bases)
    ensures var next := WorkOn(w, id, to, at).activity;
            next.Working? ==> next.publication == to && PointGrounded(w, to, next.at, bases)
  {
    hide AdvanceTo, HeldOn, Content;
    var failing := Failing(id, INTERNAL_ERROR);
    match at
    case Opened => AdvanceToKeepsParents(w, id, Reconciling, Working(id, to, AskingHead), failing);
    case Applying(parent) => AdvanceToKeepsParents(w, id, Verifying, Working(id, to, Checking(parent)), failing);
    case Checking(parent) => AdvanceToKeepsParents(w, id, CommitPrepared, Working(id, to, Preparing(parent)), failing);
    case Intending(parent) => AdvanceToKeepsParents(w, id, PushPending, Working(id, to, Leasing(parent)), failing);
    case Fetching(from) =>
      if from in w.remote {
        FetchedIsHeld(w, to.branch, bases, from);
      }
    case _ =>
  }

  lemma WorkStaysGrounded(w: World, id: AttemptId, to: Publication, at: Point, bases: set<Branch>)
    requires Inv(w) && Grounded(w, bases) && w.activity == Working(id, to, at)
    ensures Grounded(WorkOn(w, id, to, at), bases)
  {
    hide WorkOn, ParentsGrounded, PointGrounded, AttemptsSound, HeldSound, WireSound, HoldersUnique, RemoteRecorded;
    var v := WorkOn(w, id, to, at);
    WorkTouches(w, id, to, at);
    TouchedKeepsRest(w, v, id);
    NextPointGrounded(w, id, to, at, bases);
    if at.Preparing? {
      PreparingStaysGrounded(w, id, to, at.parent, bases);
    } else {
      WorkKeepsParents(w, id, to, at);
      FrameKeepsGrounds(w, v, bases);
    }
    if v.activity.Working? {
      PointStaysGrounded(w, v, to, v.activity.at, bases);
    }
  }

  lemma TouchedKeepsRest(w: World, v: World, id: AttemptId)
    requires Touched(w, v.(wire := w.wire), id)
    ensures v.held == w.held && v.policy == w.policy
  {
  }

  lemma HeldOnSame(w: World, v: World, branch: Branch, bases: set<Branch>, commit: Commit)
    requires v.held == w.held
    ensures HeldOn(v, branch, bases, commit) <==> HeldOn(w, branch, bases, commit)
  {
  }

  lemma FetchedIsHeld(w: World, branch: Branch, bases: set<Branch>, from: Branch)
    requires from in w.remote && Holding(from, w.remote[from]) in w.held && (from == branch || from in bases)
    ensures HeldOn(w, branch, bases, w.remote[from])
  {
  }

  lemma PointStaysGrounded(w: World, v: World, to: Publication, at: Point, bases: set<Branch>)
    requires w.held <= v.held && PointGrounded(w, to, at, bases)
    ensures PointGrounded(v, to, at, bases)
  {
  }

  lemma OthersKeepParents(w: World, id: AttemptId, until: nat)
    requires id in w.attempts
    ensures SameParents(w, AskBranch(w, id)) && SameParents(w, FetchBranch(w, id)) && SameParents(w, DeferRetry(w, id, until))
    ensures !AskBranch(w, id).activity.Working? && !FetchBranch(w, id).activity.Working?
    ensures !DeferRetry(w, id, until).activity.Working?
  {
  }

  lemma EnteringKeepsParents(w: World, next: Activity)
    ensures SameParents(w, w.Entered(next)) && SameParents(w, w)
  {
  }

  lemma StoppingKeepsAttempts(w: World, id: AttemptId, reason: StateReason, rest: seq<TaskId>)
    ensures SameParents(w, StopTask(w, id, reason, rest)) && !StopTask(w, id, reason, rest).activity.Working?
  {
    hide Advance;
  }

  /** Only a worker gives an attempt its parent. */
  lemma OnlyWorkGivesParents(w: World, exchange: Exchange)
    requires !(w.activity.Working? && w.activity.id in w.attempts && exchange.Succeeds?)
    ensures SameParents(w, Proceed(w, exchange))
    ensures Proceed(w, exchange).activity.Working? ==> Proceed(w, exchange) == w
  {
    hide WorkOn, ConfirmOn, FailOn, StopTask, AskBranch, FetchBranch, DeferRetry, SameParents;
    EnteringKeepsParents(w, Proceed(w, exchange).activity);
    if w.activity.Stopping? {
      StoppingKeepsAttempts(w, w.activity.id, w.activity.reason, w.activity.rest);
    } else if !w.activity.Idle? && w.activity.id in w.attempts {
      var id := w.activity.id;
      OthersKeepParents(w, id, if exchange.Defers? then exchange.until else 0);
      match w.activity {
        case Confirming(_, stage, recovering) => ConfirmKeepsParents(w, id, stage, recovering);
        case Failing(_, reason) => FailKeepsParents(w, id, reason);
        case _ =>
      }
    }
  }

  lemma LocalKeepsRest(w: World, v: World)
    requires LocalChange(w, v)
    ensures v.held == w.held && v.policy == w.policy
  {
  }

  lemma ProceedStaysGrounded(w: World, exchange: Exchange, bases: set<Branch>)
    requires Inv(w) && Grounded(w, bases)
    ensures Grounded(Proceed(w, exchange), bases)
  {
    hide Inv, ParentsGrounded, PointGrounded, LocalChange;
    var v := Proceed(w, exchange);
    if w.activity.Working? && w.activity.id in w.attempts && exchange.Succeeds? {
      WorkStaysGrounded(w, w.activity.id, w.activity.publication, w.activity.at, bases);
    } else {
      hide Proceed;
      ProceedFrame(w, exchange);
      LocalKeepsRest(w, v);
      OnlyWorkGivesParents(w, exchange);
      FrameKeepsGrounds(w, v, bases);
    }
  }

  lemma StepStaysGrounded(w: World, step: Step, bases: set<Branch>)
    requires Inv(w) && Grounded(w, bases)
    requires step.SetPolicy? ==> step.policy.target in bases
    ensures Grounded(Take(w, step), bases)
  {
    hide Inv, Proceed, BranchHeld, Withheld, ReachedDevelopment, HeldOn;
    var v := Take(w, step);
    StepFrame(w, step);
    if step.Go? {
      ProceedStaysGrounded(w, step.exchange, bases);
    } else {
      FrameKeepsGrounds(w, v, bases);
      if v.activity.Working? {
        if step.Open? && v.activity != w.activity {
          BaseIsTarget(w.policy, ReachedDevelopment(w, step.package));
        } else {
          PointStaysGrounded(w, v, w.activity.publication, w.activity.at, bases);
        }
      }
    }
  }

  lemma BaseIsTarget(policy: RepositoryPolicy, reachedDevelopment: bool)
    ensures Choose(policy, reachedDevelopment).base == policy.target
  {
  }

  /** Every branch that is the policy's target at some moment of the run. */
  function Targets(w: World, run: seq<Step>): set<Branch> {
    if run == [] then {w.policy.target}
    else
      var last := run[|run| - 1];
      Targets(w, run[..|run| - 1]) + if last.SetPolicy? then {last.policy.target} else {}
  }

  lemma {:induction false} TargetsStay(w: World, run: seq<Step>, bases: set<Branch>)
    requires Inv(w) && Grounded(w, {w.policy.target}) && Targets(w, run) <= bases
    ensures Grounded(Runs(w, run), bases)
    decreases |run|
  {
    hide Inv, Take, Grounded;
    if run == [] {
      MoreBases(w, bases);
    } else {
      var init := run[..|run| - 1];
      TargetsStay(w, init, bases);
      RunKeepsInv(w, init);
      StepStaysGrounded(Runs(w, init), run[|run| - 1], bases);
    }
  }

  lemma MoreBases(w: World, bases: set<Branch>)
    requires Grounded(w, {w.policy.target}) && w.policy.target in bases
    ensures Grounded(w, bases)
  {
    assert forall b | b in {w.policy.target} :: b in bases;
  }

  lemma RunIsGrounded(w: World, run: seq<Step>)
    requires Initial(w)
    ensures Grounded(Runs(w, run), Targets(w, run))
  {
    InitialIsSound(w);
    TargetsStay(w, run, Targets(w, run));
  }

  /** The policy stays as it is. */
  predicate Fixed(run: seq<Step>) {
    forall k | 0 <= k < |run| :: !run[k].SetPolicy?
  }

  lemma {:induction false} FixedTargets(w: World, run: seq<Step>)
    requires Fixed(run)
    ensures Targets(w, run) == {w.policy.target}
    decreases |run|
  {
    if run != [] {
      FixedTargets(w, run[..|run| - 1]);
    }
  }

  /**
   * In every run, whoever moves the branches meanwhile, a recorded parent was once the head of the attempt's
   * own branch, or of a branch that was the target at some moment. While the policy stays the same an attempt
   * on the target is built on the target itself.
   */
  lemma BuiltOnTheRightHistory(w: World, run: seq<Step>, id: AttemptId)
    requires Initial(w) && id in Runs(w, run).attempts && Runs(w, run).attempts[id].parent.Some?
    ensures var v, a := Runs(w, run), Runs(w, run).attempts[id];
            && HeldOn(v, a.branch, Targets(w, run), a.parent.value)
            && (Fixed(run) ==>
                  || Holding(a.branch, a.parent.value) in v.held
                  || (a.branch != w.policy.target && Holding(w.policy.target, a.parent.value) in v.held))
  {
    RunIsGrounded(w, run);
    if Fixed(run) {
      FixedTargets(w, run);
    }
  }
}
