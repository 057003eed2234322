/** What every run of the publication protocol keeps, whatever crashes and other writers do. */
module PublicationSafety {
  import opened Wrappers
  import opened TaskLifecycle
  import opened RepositoryPolicies
  import opened Publications

  predicate InPublication(status: TaskStatus) {
    || status.Scheduled? || status.Reconciling? || status.Verifying? || status.CommitPrepared?
    || status.PushPending? || status.RemoteConfirmed? || status.Published?
  }

  /** The remote has shown this commit, on any branch. */
  ghost predicate Seen(w: World, commit: Commit) {
    exists h | h in w.held :: h.commit == commit
  }

  /** The attempt durably names the commit and has recorded that a push may have left. */
  predicate Names(w: World, id: AttemptId, commit: Commit) {
    && id in w.attempts && w.attempts[id].candidate == Some(commit)
    && w.attempts[id].Reached().MayHaveReachedRemote()
  }

  ghost predicate AttemptSound(w: World, id: AttemptId)
    requires id in w.attempts
  {
    var a := w.attempts[id];
    && Coherent(a.state) && InPublication(a.Reached())
    && (a.candidate.Some? <==> a.parent.Some?)
    && (a.candidate.Some? ==> a.candidate.value == Candidate(id, a.package, a.parent.value))
    && (a.parent.Some? ==> !Contains(a.parent.value, a.package))
    && (a.Reached().MayHaveReachedRemote() ==> a.candidate.Some?)
    && (a.Reached().RemoteConfirmed? || a.Reached().Published? ==> Holding(a.branch, a.candidate.value) in w.held)
  }

  ghost predicate PushSound(w: World, p: Push) {
    && Names(w, p.attempt, p.commit) && w.attempts[p.attempt].Reached().PushPending?
    && p.branch == w.attempts[p.attempt].branch
    && (p.lease.Some? ==> p.lease == w.attempts[p.attempt].parent)
    && !Seen(w, p.commit)
  }

  ghost predicate AttemptsSound(w: World) {
    forall id | id in w.attempts :: AttemptSound(w, id)
  }

  ghost predicate HeldSound(w: World) {
    forall h | h in w.held && h.commit.Candidate? :: Names(w, h.commit.attempt, h.commit)
  }

  ghost predicate WireSound(w: World) {
    && (forall p | p in w.wire :: PushSound(w, p))
    && (forall p, q | p in w.wire && q in w.wire && p.attempt == q.attempt :: p == q)
  }

  /** No two attempts own one branch. */
  ghost predicate HoldersUnique(w: World) {
    forall i, j | i in w.attempts && j in w.attempts && w.attempts[i].branch == w.attempts[j].branch
                  && w.attempts[i].Holds() && w.attempts[j].Holds() :: i == j
  }

  ghost predicate RemoteRecorded(w: World) {
    forall b | b in w.remote :: Holding(b, w.remote[b]) in w.held
  }

  ghost predicate Durable(w: World) {
    AttemptsSound(w) && HeldSound(w) && WireSound(w) && HoldersUnique(w) && RemoteRecorded(w) && w.policy.Sound()
  }

  /** Nothing of this attempt has left the machine. */
  ghost predicate Unsent(w: World, id: AttemptId) {
    && (forall h | h in w.held && h.commit.Candidate? :: h.commit.attempt != id)
    && forall p | p in w.wire :: p.attempt != id
  }

  ghost predicate PointSound(w: World, id: AttemptId, to: Publication, at: Point)
    requires id in w.attempts
  {
    var a := w.attempts[id];
    && a.branch == to.branch
    && match at
       case Opened => a.state.status.Scheduled? && a.candidate.None?
       case AskingHead => a.state.status.Reconciling? && a.candidate.None?
       case Fetching(_) => a.state.status.Reconciling? && a.candidate.None?
       case Applying(_) => a.state.status.Reconciling? && a.candidate.None?
       case Checking(_) => a.state.status.Verifying? && a.candidate.None?
       case Preparing(_) => a.state.status.CommitPrepared? && a.candidate.None?
       case Intending(parent) => a.state.status.CommitPrepared? && a.parent == Some(parent)
       case Leasing(parent) => a.state.status.PushPending? && a.parent == Some(parent) && Unsent(w, id)
       case Pushing(parent, lease) =>
         && a.state.status.PushPending? && a.parent == Some(parent) && Unsent(w, id)
         && (if lease.Some? then lease.value == parent else to.createIfAbsent)
       case Sent(parent) => a.state.status.PushPending? && a.parent == Some(parent)
       case Resolving(parent) => a.state.status.PushPending? && a.parent == Some(parent)
  }

  predicate StageSound(s: State, stage: Stage) {
    match stage
    case Resume => s.status.PushPending? || (s.status.Blocked? && s.blockedFrom == Some(PushPending))
    case Observe => s.status.PushPending?
    case Confirm => s.status.PushPending?
    case Publish => s.status.RemoteConfirmed?
    case Settle => s.status.Published?
    case Mark(_) => s.status.Published?
  }

  ghost predicate ActivitySound(w: World) {
    match w.activity
    case Idle => true
    case Working(id, to, at) => id in w.attempts && PointSound(w, id, to, at)
    case AskingBranch(id) => id in w.attempts && w.attempts[id].Reached().PushPending?
    case FetchingBranch(id) => id in w.attempts && w.attempts[id].Reached().PushPending?
    case Confirming(id, stage, recovering) =>
      && id in w.attempts && w.attempts[id].Reached().MayHaveReachedRemote()
      && StageSound(w.attempts[id].state, stage)
      && w.attempts[id].candidate.Some? && Holding(w.attempts[id].branch, w.attempts[id].candidate.value) in w.held
    case Failing(id, _) => id in w.attempts
    case Stopping(id, _, _) => id in w.attempts
  }

  ghost predicate Inv(w: World) {
    Durable(w) && ActivitySound(w)
  }

  lemma InitialIsSound(w: World)
    requires Initial(w)
    ensures Inv(w)
  {
  }

  /** An attempt may change this way without disturbing anything else. */
  ghost predicate Harmless(w: World, id: AttemptId, a: Attempt)
    requires id in w.attempts
  {
    var before := w.attempts[id];
    && a.branch == before.branch
    && AttemptSound(w.(attempts := w.attempts[id := a]), id)
    && (before.Reached().MayHaveReachedRemote() ==> a.Reached().MayHaveReachedRemote() && a.candidate == before.candidate)
    && (before.candidate.Some? ==> a.parent == before.parent)
    && (a.Holds() ==> before.Holds())
    && (a.Reached() == before.Reached() || forall p | p in w.wire :: p.attempt != id)
  }

  lemma HarmlessKeepsDurable(w: World, id: AttemptId, a: Attempt)
    requires Durable(w) && id in w.attempts && Harmless(w, id, a)
    ensures Durable(w.(attempts := w.attempts[id := a]))
  {
    var v := w.(attempts := w.attempts[id := a]);
    forall i | i in v.attempts ensures AttemptSound(v, i) {
      if i != id {
        assert AttemptSound(w, i);
      }
    }
    forall h | h in v.held && h.commit.Candidate? ensures Names(v, h.commit.attempt, h.commit) {
      assert Names(w, h.commit.attempt, h.commit);
    }
    forall p | p in v.wire ensures PushSound(v, p) {
      assert PushSound(w, p);
      assert forall h | h in v.held :: h.commit != p.commit;
    }
  }

  /** Once the candidate has been seen, none of its pushes is still on its way. */
  lemma SeenMeansNoneOnTheWay(w: World, id: AttemptId)
    requires Durable(w) && id in w.attempts && w.attempts[id].candidate.Some?
    requires Seen(w, w.attempts[id].candidate.value)
    ensures forall p | p in w.wire :: p.attempt != id
  {
    forall p | p in w.wire ensures p.attempt != id {
      assert PushSound(w, p);
    }
  }

  lemma EarlyMeansNoneOnTheWay(w: World, id: AttemptId)
    requires Durable(w) && id in w.attempts && !w.attempts[id].Reached().PushPending?
    ensures forall p | p in w.wire :: p.attempt != id
  {
    forall p | p in w.wire ensures p.attempt != id {
      assert PushSound(w, p);
    }
  }

  /** The conditions under which the protocol asks for a change of state. */
  ghost predicate MayMove(w: World, id: AttemptId, target: TaskStatus)
    requires id in w.attempts
  {
    var a := w.attempts[id];
    && (a.state.status.Blocked? ==> target.PushPending?)
    && (target.PushPending? ==> a.candidate.Some?)
    && (target.RemoteConfirmed? || target.Published? ==>
          a.candidate.Some? && Holding(a.branch, a.candidate.value) in w.held)
    && !target.Cancelled? && !target.Superseded?
  }

  lemma AttemptOf(w: World, id: AttemptId)
    requires Durable(w) && id in w.attempts
    ensures AttemptSound(w, id)
  {
  }

  /** Where the protocol asks for it, an accepted advance leaves the attempt sound. */
  lemma AdvanceIsSound(w: World, id: AttemptId, target: TaskStatus, reason: Option<StateReason>)
    requires id in w.attempts && AttemptSound(w, id) && MayMove(w, id, target)
    requires AdvanceAttempt(w, id, target, reason).Some?
    ensures var v, a := AdvanceAttempt(w, id, target, reason).value, w.attempts[id];
            && id in v.attempts && v == w.(attempts := w.attempts[id := v.attempts[id]])
            && AttemptSound(v, id)
            && v.attempts[id].branch == a.branch && v.attempts[id].candidate == a.candidate
            && v.attempts[id].parent == a.parent
            && (a.Reached().MayHaveReachedRemote() ==> v.attempts[id].Reached().MayHaveReachedRemote())
            && (v.attempts[id].Holds() ==> a.Holds())
            && (a.Reached().PushPending? && !v.attempts[id].Reached().PushPending? ==>
                  Holding(a.branch, a.candidate.value) in w.held)
  {
  }

  lemma AdvanceKeepsDurable(w: World, id: AttemptId, target: TaskStatus, reason: Option<StateReason>)
    requires Durable(w) && id in w.attempts && MayMove(w, id, target)
    requires AdvanceAttempt(w, id, target, reason).Some?
    ensures Durable(AdvanceAttempt(w, id, target, reason).value)
  {
    hide HeldSound, WireSound, HoldersUnique, RemoteRecorded, AttemptSound, MayMove, AdvanceAttempt;
    var v := AdvanceAttempt(w, id, target, reason).value;
    AttemptOf(w, id);
    AdvanceIsSound(w, id, target, reason);
    if w.attempts[id].Reached().PushPending? {
      if !v.attempts[id].Reached().PushPending? {
        PendingNamesCandidate(w, id);
        assert Seen(w, w.attempts[id].candidate.value);
        SeenMeansNoneOnTheWay(w, id);
      }
    } else {
      EarlyMeansNoneOnTheWay(w, id);
    }
    assert Harmless(w, id, v.attempts[id]);
    HarmlessKeepsDurable(w, id, v.attempts[id]);
  }

  lemma PendingNamesCandidate(w: World, id: AttemptId)
    requires id in w.attempts && AttemptSound(w, id) && w.attempts[id].Reached().PushPending?
    ensures w.attempts[id].candidate.Some?
  {
  }

  /** With the same attempts and history, fewer pushes and branches disturb nothing. */
  lemma DurableFrame(w: World, v: World)
    requires Durable(w) && v.attempts == w.attempts && v.held == w.held && v.wire <= w.wire && v.policy.Sound()
    requires forall b | b in v.remote :: b in w.remote && v.remote[b] == w.remote[b]
    ensures Durable(v)
  {
    forall i | i in v.attempts ensures AttemptSound(v, i) {
      assert AttemptSound(w, i);
    }
    forall h | h in v.held && h.commit.Candidate? ensures Names(v, h.commit.attempt, h.commit) {
      assert Names(w, h.commit.attempt, h.commit);
    }
    forall p | p in v.wire ensures PushSound(v, p) {
      assert PushSound(w, p);
      assert forall h | h in v.held :: h.commit != p.commit;
    }
  }

  /** What is durable does not depend on who is doing what. */
  lemma EnteredKeepsDurable(w: World, next: Activity)
    requires Durable(w)
    ensures Durable(w.Entered(next))
  {
    PolicyIsSound(w);
    DurableFrame(w, w.Entered(next));
  }

  lemma PolicyIsSound(w: World)
    requires Durable(w)
    ensures w.policy.Sound()
  {
  }

  lemma AdvanceToKeepsDurable(w: World, id: AttemptId, target: TaskStatus, next: Activity, refused: Activity)
    requires Durable(w) && id in w.attempts && MayMove(w, id, target)
    ensures Durable(AdvanceTo(w, id, target, next, refused))
  {
    hide Durable, MayMove, AdvanceAttempt;
    match AdvanceAttempt(w, id, target, None)
    case Some(advanced) =>
      AdvanceKeepsDurable(w, id, target, None);
      EnteredKeepsDurable(advanced, next);
    case None =>
      EnteredKeepsDurable(w, refused);
  }

  lemma OrdinaryAdvance(s: State, target: TaskStatus)
    requires !target.Blocked? && !target.Cancelled? && !target.Superseded? && Advance(s, target, None).Ok?
    ensures Advance(s, target, None).value == State(target, None, None)
  {
  }

  /** The attempt has moved to `target` and nothing else changed but the activity. */
  ghost predicate Moved(w: World, v: World, id: AttemptId, target: TaskStatus)
    requires id in w.attempts
  {
    exists retry ::
      v == w.(attempts := w.attempts[id := w.attempts[id].(state := State(target, None, None), retryNotBefore := retry)],
              activity := v.activity)
  }

  /** Either the change is made, or only the activity moves on. */
  lemma AdvanceToEffect(w: World, id: AttemptId, target: TaskStatus, next: Activity, refused: Activity)
    requires id in w.attempts && !target.Blocked? && !target.Cancelled? && !target.Superseded?
    ensures var v := AdvanceTo(w, id, target, next, refused);
            (v.activity == next && Moved(w, v, id, target)) || v == w.Entered(refused)
  {
    hide Advance;
    var a := w.attempts[id];
    if Advance(a.state, target, None).Ok? {
      OrdinaryAdvance(a.state, target);
      var retry := if target.PushPending? then a.retryNotBefore else None;
      assert AdvanceTo(w, id, target, next, refused) ==
        w.(attempts := w.attempts[id := a.(state := State(target, None, None), retryNotBefore := retry)],
           activity := next);
    }
  }

  lemma WorkAdvances(w: World, id: AttemptId, to: Publication, at: Point)
    requires Inv(w) && w.activity == Working(id, to, at)
    requires at.Opened? || at.Applying? || at.Checking? || at.Intending?
    ensures Inv(WorkOn(w, id, to, at))
  {
    hide Durable, AdvanceTo;
    var (target, next) :=
      match at
      case Opened => (Reconciling, Working(id, to, AskingHead))
      case Applying(parent) => (Verifying, Working(id, to, Checking(parent)))
      case Checking(parent) => (CommitPrepared, Working(id, to, Preparing(parent)))
      case Intending(parent) => (PushPending, Working(id, to, Leasing(parent)));
    var v := AdvanceTo(w, id, target, next, Failing(id, INTERNAL_ERROR));
    AttemptOf(w, id);
    AdvanceToKeepsDurable(w, id, target, next, Failing(id, INTERNAL_ERROR));
    AdvanceToEffect(w, id, target, next, Failing(id, INTERNAL_ERROR));
    if at.Intending? {
      NothingLeftYet(w, id);
    }
    assert v == WorkOn(w, id, to, at);
  }

  /** Before the push is pending, neither the remote nor the wire knows the candidate. */
  lemma NothingLeftYet(w: World, id: AttemptId)
    requires Durable(w) && id in w.attempts && !w.attempts[id].Reached().MayHaveReachedRemote()
    ensures Unsent(w, id)
  {
    forall h | h in w.held && h.commit.Candidate? ensures h.commit.attempt != id {
      assert Names(w, h.commit.attempt, h.commit);
    }
    EarlyMeansNoneOnTheWay(w, id);
  }

  lemma WorkReads(w: World, id: AttemptId, to: Publication, at: Point)
    requires Inv(w) && w.activity == Working(id, to, at)
    requires at.AskingHead? || at.Fetching? || at.Leasing? || at.Sent? || at.Resolving?
    ensures Inv(WorkOn(w, id, to, at))
  {
    hide Durable;
    AttemptOf(w, id);
    var v := WorkOn(w, id, to, at);
    EnteredKeepsDurable(w, v.activity);
    assert v == w.Entered(v.activity);
    if v.activity.Confirming? {
      HeadIsHeld(w, to.branch);
    }
  }

  lemma HeadIsHeld(w: World, branch: Branch)
    requires Durable(w) && branch in w.remote
    ensures Holding(branch, w.remote[branch]) in w.held
  {
  }

  lemma WorkRecordsIntent(w: World, id: AttemptId, to: Publication, parent: Commit)
    requires Inv(w) && w.activity == Working(id, to, Preparing(parent))
    ensures Inv(WorkOn(w, id, to, Preparing(parent)))
  {
    hide HeldSound, WireSound, HoldersUnique, RemoteRecorded, Seen, Content;
    AttemptOf(w, id);
    var package := w.attempts[id].package;
    if Contains(parent, package) {
      EnteredKeepsDurable(w, Failing(id, COMMIT_FAILED));
    } else {
      var a := w.attempts[id].(candidate := Some(Candidate(id, package, parent)), parent := Some(parent));
      assert Harmless(w, id, a);
      HarmlessKeepsDurable(w, id, a);
      EnteredKeepsDurable(w.(attempts := w.attempts[id := a]), Working(id, to, Intending(parent)));
    }
  }

  lemma WorkSends(w: World, id: AttemptId, to: Publication, parent: Commit, lease: Option<Commit>)
    requires Inv(w) && w.activity == Working(id, to, Pushing(parent, lease))
    ensures Inv(WorkOn(w, id, to, Pushing(parent, lease)))
  {
    hide HoldersUnique, RemoteRecorded, Content, Contains;
    var p := Push(id, to.branch, lease, Candidate(id, w.attempts[id].package, parent));
    AttemptOf(w, id);
    var v := w.(wire := w.wire + {p});
    AttemptsFrame(w, v);
    forall q | q in v.wire ensures PushSound(v, q) {
      if q in w.wire {
        assert PushSound(w, q);
      }
    }
    HoldersFrame(w, v);
    EnteredKeepsDurable(v, Working(id, to, Sent(parent)));
  }

  lemma AttemptsFrame(w: World, v: World)
    requires v.attempts == w.attempts && v.held == w.held && AttemptsSound(w)
    ensures AttemptsSound(v)
  {
    forall i | i in v.attempts ensures AttemptSound(v, i) {
      assert AttemptSound(w, i);
    }
  }

  lemma HoldersFrame(w: World, v: World)
    requires v.attempts == w.attempts && v.remote == w.remote && v.held == w.held
    requires HoldersUnique(w) && RemoteRecorded(w)
    ensures HoldersUnique(v) && RemoteRecorded(v)
  {
  }

  lemma WorkKeeps(w: World, id: AttemptId, to: Publication, at: Point)
    requires Inv(w) && w.activity == Working(id, to, at)
    ensures Inv(WorkOn(w, id, to, at))
  {
    hide Inv, WorkOn;
    match at
    case Preparing(parent) => WorkRecordsIntent(w, id, to, parent);
    case Pushing(parent, lease) => WorkSends(w, id, to, parent, lease);
    case AskingHead => WorkReads(w, id, to, at);
    case Fetching(_) => WorkReads(w, id, to, at);
    case Leasing(_) => WorkReads(w, id, to, at);
    case Sent(_) => WorkReads(w, id, to, at);
    case Resolving(_) => WorkReads(w, id, to, at);
    case _ => WorkAdvances(w, id, to, at);
  }

  lemma DeferKeeps(w: World, id: AttemptId, until: nat)
    requires Inv(w) && id in w.attempts
    ensures Inv(DeferRetry(w, id, until))
  {
    hide Durable;
    AttemptOf(w, id);
    var a := w.attempts[id].(retryNotBefore := Some(until), failures := w.attempts[id].failures + 1);
    assert Harmless(w, id, a);
    HarmlessKeepsDurable(w, id, a);
    EnteredKeepsDurable(w.(attempts := w.attempts[id := a]), Idle);
    EnteredKeepsDurable(w, Failing(id, INTERNAL_ERROR));
  }

  lemma FailKeeps(w: World, id: AttemptId, reason: StateReason)
    requires Inv(w) && id in w.attempts
    ensures Inv(FailOn(w, id, reason))
  {
    hide Durable, AdvanceAttempt, MayMove;
    AttemptOf(w, id);
    var a := w.attempts[id].(failures := w.attempts[id].failures + 1);
    assert Harmless(w, id, a);
    HarmlessKeepsDurable(w, id, a);
    var counted := w.(attempts := w.attempts[id := a]);
    EnteredKeepsDurable(w, Idle);
    EnteredKeepsDurable(counted, Idle);
    if !a.state.status.Blocked? && AdvanceAttempt(counted, id, Blocked, Some(reason)).Some? {
      MayBlock(counted, id);
      AdvanceKeepsDurable(counted, id, Blocked, Some(reason));
      EnteredKeepsDurable(AdvanceAttempt(counted, id, Blocked, Some(reason)).value, Stopping(id, reason, a.package.tasks));
      BlockingKeepsIds(counted, id, reason);
    }
  }

  lemma BlockingKeepsIds(w: World, id: AttemptId, reason: StateReason)
    requires id in w.attempts && AdvanceAttempt(w, id, Blocked, Some(reason)).Some?
    ensures id in AdvanceAttempt(w, id, Blocked, Some(reason)).value.attempts
  {
  }

  /** What is durable about publication does not depend on the tasks. */
  lemma TasksKeepDurable(w: World, tasks: map<TaskId, State>)
    requires Durable(w)
    ensures Durable(w.(tasks := tasks))
  {
    PolicyIsSound(w);
    DurableFrame(w, w.(tasks := tasks));
  }

  lemma StopKeeps(w: World, id: AttemptId, reason: StateReason, rest: seq<TaskId>)
    requires Inv(w) && w.activity == Stopping(id, reason, rest)
    ensures Inv(StopTask(w, id, reason, rest))
  {
    hide Durable, Advance;
    var v := StopTask(w, id, reason, rest);
    TasksKeepDurable(w, v.tasks);
    EnteredKeepsDurable(w.(tasks := v.tasks), v.activity);
    assert v == w.(tasks := v.tasks).Entered(v.activity);
  }

  lemma MarkKeeps(w: World, id: AttemptId, rest: seq<TaskId>, recovering: bool)
    requires Inv(w) && w.activity == Confirming(id, Mark(rest), recovering)
    ensures Inv(ConfirmOn(w, id, Mark(rest), recovering))
  {
    hide Durable, Advance;
    var v := ConfirmOn(w, id, Mark(rest), recovering);
    TasksKeepDurable(w, v.tasks);
    EnteredKeepsDurable(w.(tasks := v.tasks), v.activity);
    assert v == w.(tasks := v.tasks).Entered(v.activity);
  }

  lemma MayBlock(w: World, id: AttemptId)
    requires id in w.attempts && !w.attempts[id].state.status.Blocked?
    ensures MayMove(w, id, Blocked)
  {
  }

  lemma RecoveryKeeps(w: World, id: AttemptId)
    requires Inv(w)
    ensures w.activity == AskingBranch(id) ==> Inv(AskBranch(w, id))
    ensures w.activity == FetchingBranch(id) ==> Inv(FetchBranch(w, id))
  {
    hide Durable;
    if w.activity == AskingBranch(id) {
      EnteredKeepsDurable(w, AskBranch(w, id).activity);
    } else if w.activity == FetchingBranch(id) {
      AttemptOf(w, id);
      var v := FetchBranch(w, id);
      EnteredKeepsDurable(w, v.activity);
      if v.activity.Confirming? {
        HeadIsHeld(w, w.attempts[id].branch);
      }
    }
  }

  lemma ObserveKeeps(w: World, id: AttemptId, recovering: bool)
    requires Inv(w) && w.activity == Confirming(id, Observe, recovering)
    ensures Inv(ConfirmOn(w, id, Observe, recovering))
  {
    hide Durable;
    AttemptOf(w, id);
    var a := w.attempts[id].(observed := w.attempts[id].candidate);
    assert Harmless(w, id, a);
    HarmlessKeepsDurable(w, id, a);
    EnteredKeepsDurable(w.(attempts := w.attempts[id := a]), Confirming(id, Confirm, recovering));
  }

  lemma ConfirmKeeps(w: World, id: AttemptId, stage: Stage, recovering: bool)
    requires Inv(w) && w.activity == Confirming(id, stage, recovering)
    ensures Inv(ConfirmOn(w, id, stage, recovering))
  {
    hide Durable, AdvanceTo;
    AttemptOf(w, id);
    var refused := if recovering then Idle else Failing(id, INTERNAL_ERROR);
    match stage
    case Resume =>
      EnteredKeepsDurable(w, Confirming(id, Observe, recovering));
      if w.attempts[id].state.status.Blocked? {
        AdvanceToKeepsDurable(w, id, PushPending, Confirming(id, Observe, recovering), refused);
        AdvanceToEffect(w, id, PushPending, Confirming(id, Observe, recovering), refused);
      }
    case Observe => ObserveKeeps(w, id, recovering);
    case Confirm =>
      AdvanceToKeepsDurable(w, id, RemoteConfirmed, Confirming(id, Publish, recovering), refused);
      AdvanceToEffect(w, id, RemoteConfirmed, Confirming(id, Publish, recovering), refused);
    case Publish =>
      AdvanceToKeepsDurable(w, id, Published, Confirming(id, Settle, recovering), refused);
      AdvanceToEffect(w, id, Published, Confirming(id, Settle, recovering), refused);
    case Settle => EnteredKeepsDurable(w, SettleTasks(w, id, recovering).activity);
    case Mark(rest) => MarkKeeps(w, id, rest, recovering);
  }

  lemma ProceedKeeps(w: World, exchange: Exchange)
    requires Inv(w)
    ensures Inv(Proceed(w, exchange))
  {
    hide Durable, WorkOn, ConfirmOn, FailOn, StopTask, AskBranch, FetchBranch, DeferRetry, PointSound, StageSound;
    EnteredKeepsDurable(w, Idle);
    match w.activity
    case Idle =>
    case Working(id, to, at) =>
      if exchange.Succeeds? {
        WorkKeeps(w, id, to, at);
      } else if exchange.Fails? {
        EnteredKeepsDurable(w, Failing(id, exchange.reason));
      } else if MayDefer(at) {
        DeferKeeps(w, id, exchange.until);
      }
    case AskingBranch(id) => RecoveryKeeps(w, id);
    case FetchingBranch(id) => RecoveryKeeps(w, id);
    case Confirming(id, stage, recovering) =>
      if exchange.Succeeds? {
        ConfirmKeeps(w, id, stage, recovering);
      } else if exchange.Fails? {
        EnteredKeepsDurable(w, Failing(id, exchange.reason));
      }
    case Failing(id, reason) => FailKeeps(w, id, reason);
    case Stopping(id, reason, rest) => StopKeeps(w, id, reason, rest);
  }

  lemma NewAttemptKeeps(w: World, id: AttemptId, a: Attempt)
    requires Durable(w) && id !in w.attempts && !BranchHeld(w, a.branch)
    requires a.state == State(Scheduled, None, None) && a.candidate.None? && a.parent.None?
    ensures Durable(w.(attempts := w.attempts[id := a]))
  {
    hide HoldersUnique, RemoteRecorded;
    var v := w.(attempts := w.attempts[id := a]);
    forall i | i in v.attempts ensures AttemptSound(v, i) {
      if i != id {
        assert AttemptSound(w, i);
      }
    }
    forall h | h in v.held && h.commit.Candidate? ensures Names(v, h.commit.attempt, h.commit) {
      assert Names(w, h.commit.attempt, h.commit);
    }
    forall p | p in v.wire ensures PushSound(v, p) {
      assert PushSound(w, p);
      assert forall h | h in v.held :: h.commit != p.commit;
    }
    NewHolder(w, id, a);
  }

  lemma NewHolder(w: World, id: AttemptId, a: Attempt)
    requires HoldersUnique(w) && RemoteRecorded(w) && id !in w.attempts && !BranchHeld(w, a.branch)
    ensures HoldersUnique(w.(attempts := w.attempts[id := a])) && RemoteRecorded(w.(attempts := w.attempts[id := a]))
  {
  }

  lemma OpenKeeps(w: World, id: AttemptId, package: Package, maintenance: bool)
    requires Inv(w)
    ensures Inv(OpenAttempt(w, id, package, maintenance))
  {
    hide Choose, ReachedDevelopment, Withheld, Durable, BranchHeld;
    var to := Choose(w.policy, ReachedDevelopment(w, package));
    var a := Attempt(package, to.branch, State(Scheduled, None, None), None, None, None, None, 0);
    if id !in w.attempts && !BranchHeld(w, to.branch) {
      NewAttemptKeeps(w, id, a);
      EnteredKeepsDurable(w.(attempts := w.attempts[id := a]), Working(id, to, Opened));
    }
  }

  /** A commit that was already seen, or is another writer's, may appear anywhere. */
  lemma ShownKeeps(w: World, branch: Branch, commit: Commit)
    requires Durable(w)
    requires commit.Foreign? || Names(w, commit.attempt, commit)
    requires forall p | p in w.wire :: p.commit != commit
    ensures Durable(w.WithHead(branch, commit))
  {
    var v := w.WithHead(branch, commit);
    forall i | i in v.attempts ensures AttemptSound(v, i) {
      assert AttemptSound(w, i);
    }
    forall h | h in v.held && h.commit.Candidate? ensures Names(v, h.commit.attempt, h.commit) {
      if h in w.held {
        assert Names(w, h.commit.attempt, h.commit);
      }
    }
    forall p | p in v.wire ensures PushSound(v, p) {
      assert PushSound(w, p);
      assert forall h | h in w.held :: h.commit != p.commit;
      assert forall h | h in v.held :: h.commit != p.commit;
    }
  }

  /** A commit the remote has already seen, or one on its way to it. */
  ghost predicate Circulates(w: World, commit: Commit) {
    || commit.Foreign? || Seen(w, commit)
    || exists p :: p in w.wire && p.commit == commit && p.attempt == commit.attempt
  }

  /** The activity's view survives whatever appears on the remote, and any push being decided. */
  lemma ShownKeepsActivity(w: World, branch: Branch, commit: Commit, wire: set<Push>)
    requires ActivitySound(w) && Circulates(w, commit) && wire <= w.wire
    ensures ActivitySound(w.WithHead(branch, commit).(wire := wire))
    ensures ActivitySound(w.(wire := wire))
  {
    hide Durable;
    var v := w.WithHead(branch, commit).(wire := wire);
    if w.activity.Working? && (w.activity.at.Leasing? || w.activity.at.Pushing?) {
      assert Unsent(w, w.activity.id);
      assert commit.Candidate? ==> commit.attempt != w.activity.id;
      assert Unsent(v, w.activity.id);
      assert Unsent(w.(wire := wire), w.activity.id);
    }
  }

  /** A push on the wire carries its own attempt's candidate, which no other push carries. */
  lemma CarriesItsOwn(w: World, push: Push)
    requires Durable(w) && push in w.wire
    ensures Names(w, push.attempt, push.commit) && push.commit.Candidate? && push.commit.attempt == push.attempt
    ensures forall p | p in w.wire && p != push :: p.commit != push.commit
  {
    assert PushSound(w, push) && AttemptSound(w, push.attempt);
    forall p | p in w.wire && p != push ensures p.commit != push.commit {
      assert PushSound(w, p) && AttemptSound(w, p.attempt);
    }
  }

  lemma DeliverKeeps(w: World, push: Push)
    requires Inv(w)
    ensures Inv(DeliverPush(w, push))
  {
    hide Durable, ActivitySound;
    if push in w.wire {
      var decided := w.(wire := w.wire - {push});
      CarriesItsOwn(w, push);
      PolicyIsSound(w);
      DurableFrame(w, decided);
      ShownKeepsActivity(w, push.branch, push.commit, w.wire - {push});
      if w.Head(push.branch) == push.lease {
        ShownKeeps(decided, push.branch, push.commit);
        assert DeliverPush(w, push) == w.WithHead(push.branch, push.commit).(wire := w.wire - {push});
      }
    }
  }

  lemma WriteKeeps(w: World, branch: Branch, commit: Commit)
    requires Inv(w) && w.IsKnown(commit)
    ensures Inv(w.WithHead(branch, commit))
  {
    hide ActivitySound;
    if commit.Candidate? {
      var h :| h in w.held && h.commit == commit;
      assert Names(w, commit.attempt, commit);
    }
    forall p | p in w.wire ensures p.commit != commit {
      CarriesItsOwn(w, p);
      assert PushSound(w, p);
    }
    ShownKeeps(w, branch, commit);
    ShownKeepsActivity(w, branch, commit, w.wire);
    assert w.WithHead(branch, commit).(wire := w.wire) == w.WithHead(branch, commit);
  }

  lemma DeleteOrPolicyKeeps(w: World, v: World)
    requires Inv(w) && v == w.(remote := v.remote, policy := v.policy) && v.policy.Sound()
    requires forall b | b in v.remote :: b in w.remote && v.remote[b] == w.remote[b]
    ensures Inv(v)
  {
    DurableFrame(w, v);
    if w.activity.Working? && (w.activity.at.Leasing? || w.activity.at.Pushing?) {
      assert Unsent(w, w.activity.id);
      assert Unsent(v, w.activity.id);
    }
  }

  lemma AwaitingIsPending(w: World, id: AttemptId)
    requires Durable(w) && id in w.attempts && w.attempts[id].AwaitsResolution()
    ensures w.attempts[id].Reached().PushPending?
  {
  }

  lemma CommandFrame(w: World, task: TaskId, request: Request)
    ensures ChangeTask(w, task, request) == w.(tasks := ChangeTask(w, task, request).tasks)
    ensures ChangeTask(w, task, request) == w || w.activity.Idle?
  {
    hide Apply;
  }

  /** Every step keeps the invariant. */
  lemma StepKeeps(w: World, step: Step)
    requires Inv(w)
    ensures Inv(Take(w, step))
  {
    hide Durable, Proceed, OpenAttempt, DeliverPush, ChangeTask, PointSound, StageSound;
    match step
    case Open(id, package, maintenance) => OpenKeeps(w, id, package, maintenance);
    case Go(exchange) => ProceedKeeps(w, exchange);
    case StartRecovery(id) =>
      if id in w.attempts && w.attempts[id].AwaitsResolution() {
        AwaitingIsPending(w, id);
        EnteredKeepsDurable(w, AskingBranch(id));
      }
    case Crash => EnteredKeepsDurable(w, Idle);
    case Deliver(push) => DeliverKeeps(w, push);
    case Write(branch, commit) =>
      if w.IsKnown(commit) {
        WriteKeeps(w, branch, commit);
      }
    case Delete(branch) =>
      PolicyIsSound(w);
      DeleteOrPolicyKeeps(w, w.(remote := w.remote - {branch}));
    case SetPolicy(policy) =>
      if policy.Sound() {
        DeleteOrPolicyKeeps(w, w.(policy := policy));
      }
    case Command(task, request) =>
      TasksKeepDurable(w, Take(w, step).tasks);
      CommandFrame(w, task, request);
  }

  lemma {:induction false} RunKeepsInv(w: World, run: seq<Step>)
    requires Inv(w)
    ensures Inv(Runs(w, run))
    decreases |run|
  {
    hide Inv, Take;
    if run != [] {
      RunKeepsInv(w, run[..|run| - 1]);
      StepKeeps(Runs(w, run[..|run| - 1]), run[|run| - 1]);
    }
  }

  /** So every run does, from the start. */
  lemma RunKeeps(w: World, run: seq<Step>)
    requires Initial(w)
    ensures Inv(Runs(w, run))
  {
    InitialIsSound(w);
    RunKeepsInv(w, run);
  }
}
