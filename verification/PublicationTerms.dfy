/** The protocol's conditions in plain terms: what is opened where, what recovery takes up, and what others may do. */
module PublicationTerms {
  import opened Wrappers
  import opened TaskLifecycle
  import opened RepositoryPolicies
  import opened Publications
  import opened PublicationSafety
  import opened PublicationLaws

  // ------------------------------------------------------------- opening

  /** Some attempt published the package to the development branch. */
  ghost predicate OnDevelopmentBranch(w: World, package: Package) {
    exists j :: j in w.attempts && w.attempts[j].state.status == Published && w.attempts[j].package == package
                && w.policy.development == Some(w.attempts[j].branch)
  }

  /** Work goes to the development branch first, where there is one, and to the target after that. */
  ghost predicate GoesToDevelopment(w: World, package: Package) {
    w.policy.development != None && !OnDevelopmentBranch(w, package)
  }

  /** It has ended, or was blocked before its push was pending. */
  predicate GaveUp(a: Attempt) {
    || a.state.status == Published || a.state.status == Cancelled || a.state.status == Superseded
    || (a.state.status == Blocked && a.state.blockedFrom != Some(PushPending) && a.state.blockedFrom != Some(RemoteConfirmed))
  }

  /** Everyone who had this branch has given it up. */
  ghost predicate Free(w: World, branch: Branch) {
    forall j | j in w.attempts && w.attempts[j].branch == branch :: GaveUp(w.attempts[j])
  }

  lemma HeldUnlessFree(w: World, branch: Branch)
    ensures BranchHeld(w, branch) <==> !Free(w, branch)
  {
    forall a: Attempt ensures a.Holds() <==> !GaveUp(a) {
    }
  }

  lemma ReachedMeansPublishedThere(w: World, package: Package)
    ensures ReachedDevelopment(w, package) <==> OnDevelopmentBranch(w, package)
  {
    if OnDevelopmentBranch(w, package) {
      var j :| j in w.attempts && w.attempts[j].state.status == Published && w.attempts[j].package == package
               && w.policy.development == Some(w.attempts[j].branch);
      assert PublishedTo(w, package, w.attempts[j].branch);
    }
  }

  /** Between activities a release of this package may begin: its branch is free, and it is not left to a pull request. */
  ghost predicate MayOpen(w: World, id: AttemptId, package: Package, maintenance: bool) {
    && w.activity == Idle && id !in w.attempts
    && (maintenance && w.policy.integration == PullRequest ==> GoesToDevelopment(w, package))
    && Free(w, if GoesToDevelopment(w, package) then w.policy.development.value else w.policy.target)
  }

  /**
   * A release is opened exactly when it may be, at the beginning of its stages, with nothing built yet; only the
   * development branch may be created, and is then built on the target. Otherwise nothing happens.
   */
  lemma OpensExactly(w: World, id: AttemptId, package: Package, maintenance: bool)
    requires w.policy.Sound()
    ensures var v, early := Take(w, Open(id, package, maintenance)), GoesToDevelopment(w, package);
            var branch := if early then w.policy.development.value else w.policy.target;
            if MayOpen(w, id, package, maintenance) then
              v == w.(attempts := w.attempts[id :=
                        Attempt(package, branch, State(Scheduled, None, None), None, None, None, None, 0)],
                      activity := Working(id, Publication(branch, w.policy.target, early), Opened))
            else v == w
  {
    ReachedMeansPublishedThere(w, package);
    HeldUnlessFree(w, w.policy.target);
    if w.policy.development.Some? {
      HeldUnlessFree(w, w.policy.development.value);
    }
    hide ReachedDevelopment, OnDevelopmentBranch, BranchHeld, Free;
  }

  // ---------------------------------------------------------------- working

  /** Only the activity changes, to this. */
  predicate Turns(w: World, v: World, next: Activity) {
    v == w.(activity := next)
  }

  /**
   * Whatever a push reports, what the branch shows decides. It is confirmed when the durable candidate is at its
   * head, at a first look or at a second; after that it has failed. Before it is sent, a branch that is not where
   * the candidate was built, or is absent and may not be created, fails it.
   */
  lemma TheBranchDecides(w: World, id: AttemptId, to: Publication, at: Point)
    requires Inv(w) && w.activity == Working(id, to, at)
    ensures var v, a, failed := Take(w, Go(Succeeds)), w.attempts[id], Failing(id, INTERNAL_ERROR);
            && a.branch == to.branch
            && (at.Sent? ==>
                  Turns(w, v, if w.Head(a.branch) == a.candidate then Confirming(id, Resume, false)
                              else Working(id, to, Resolving(at.parent))))
            && (at.Resolving? ==>
                  Turns(w, v, if w.Head(a.branch) == a.candidate then Confirming(id, Resume, false) else failed))
            && (at.Leasing? ==>
                  Turns(w, v, if w.Head(a.branch) == a.parent || (w.Head(a.branch) == None && to.createIfAbsent)
                              then Working(id, to, Pushing(at.parent, w.Head(a.branch))) else failed))
            && (at.AskingHead? ==>
                  Turns(w, v, Working(id, to, Fetching(if w.Head(to.branch) == None && to.createIfAbsent then to.base else to.branch))))
            && (at.Fetching? ==>
                  Turns(w, v, if w.Head(at.from) == None then failed
                              else Working(id, to, Applying(w.Head(at.from).value))))
  {
    hide HeldSound, WireSound, HoldersUnique, RemoteRecorded, Content, Unsent;
    AttemptOf(w, id);
  }

  // ------------------------------------------------------------ recovering

  /** Recovery takes up exactly the attempts whose push is pending, or that were blocked there. */
  lemma RecoverySelectsExactly(w: World, id: AttemptId)
    ensures Take(w, StartRecovery(id)) ==
      if w.activity == Idle && id in w.attempts
         && (w.attempts[id].state.status == PushPending
             || (w.attempts[id].state.status == Blocked && w.attempts[id].state.blockedFrom == Some(PushPending)))
      then w.(activity := AskingBranch(id)) else w
  {
  }

  /** A candidate that left belongs to an attempt whose push is pending or further, or that was blocked there. */
  lemma LeftOnlyFromPushPending(w: World, run: seq<Step>, commit: Commit)
    requires Initial(w) && commit.Candidate? && Out(Runs(w, run), commit)
    ensures var v := Runs(w, run);
            && commit.attempt in v.attempts && v.attempts[commit.attempt].candidate == Some(commit)
            && var s := v.attempts[commit.attempt].state;
               || s.status == PushPending || s.status == RemoteConfirmed || s.status == Published
               || (s.status == Blocked && (s.blockedFrom == Some(PushPending) || s.blockedFrom == Some(RemoteConfirmed)))
  {
    NamedBeforeItLeaves(w, run, commit);
    RunKeeps(w, run);
    AttemptOf(Runs(w, run), commit.attempt);
    hide Runs;
  }

  // ----------------------------------------------------------- other parties

  /** What other parties do happens: a branch is set or deleted, a policy put in force, and no other branch moves. */
  lemma OthersAreNotHeldUp(w: World, branch: Branch, commit: Commit, policy: RepositoryPolicy)
    requires commit.Foreign? || exists h :: h in w.held && h.commit == commit
    requires policy.Sound()
    ensures var v := Take(w, Write(branch, commit));
            && v.remote == w.remote[branch := commit] && v.held == w.held + {Holding(branch, commit)}
            && v == w.(remote := v.remote, held := v.held)
    ensures var v := Take(w, Delete(branch));
            branch !in v.remote && v == w.(remote := v.remote) && forall b | b != branch :: v.Head(b) == w.Head(b)
    ensures Take(w, SetPolicy(policy)) == w.(policy := policy)
    ensures Take(w, Crash) == w.(activity := Idle)
  {
  }

  /** A candidate that the remote never had cannot come from anyone else. */
  lemma UnseenIsNotWritten(w: World, branch: Branch, commit: Commit)
    requires commit.Candidate? && forall h | h in w.held :: h.commit != commit
    ensures Take(w, Write(branch, commit)) == w
  {
  }

  /** The remote applies a push on its way exactly when its branch is what the lease names, and then all of it. */
  lemma LandsWhole(w: World, push: Push)
    requires push in w.wire
    ensures var v, head := Take(w, Deliver(push)), w.Head(push.branch);
            && v.wire == w.wire - {push} && v.attempts == w.attempts && v.tasks == w.tasks && v.activity == w.activity
            && if head == push.lease then
                 v.remote == w.remote[push.branch := push.commit] && v.held == w.held + {Holding(push.branch, push.commit)}
               else v.remote == w.remote && v.held == w.held
  {
  }

  // ---------------------------------------------------------------- commands

  /**
   * Between activities a command changes a task as the task's own states permit, except that a blocked one is
   * only cancelled or superseded. While anybody is at work no task is changed by command.
   */
  lemma CommandsExactly(w: World, task: TaskId, target: TaskStatus, reason: Option<StateReason>)
    requires task in w.tasks && Coherent(w.tasks[task])
    ensures var v, s := Take(w, Command(task, Transition(target, reason))), w.tasks[task];
            if w.activity == Idle && Permitted(s, target, reason)
               && (s.status == Blocked ==> target == Cancelled || target == Superseded)
            then v == w.(tasks := w.tasks[task := v.tasks[task]]) && Leads(s, target, reason, v.tasks[task])
            else v == w
    ensures var v := Take(w, Command(task, WithdrawSchedule));
            v == if w.activity == Idle && w.tasks[task].status == Scheduled
                 then w.(tasks := w.tasks[task := State(Queued, None, None)]) else w
  {
    ChangesAreExact(w.tasks[task], target, reason);
    hide Advance, Permitted, Leads;
  }
}
