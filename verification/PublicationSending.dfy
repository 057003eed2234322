/** The one push of an attempt: what is durable before it, what it is leased on, and that it is the only one. */
module PublicationSending {
  import opened Wrappers
  import opened TaskLifecycle
  import opened RepositoryPolicies
  import opened Publications
  import opened PublicationSafety
  import opened PublicationLaws
  import opened PublicationRecovery

  /** An attempt reaches push pending only with candidate and parent already durable and nothing yet sent. */
  lemma IntentComesFirst(w: World, step: Step, id: AttemptId)
    requires Inv(w) && id in w.attempts && !w.attempts[id].Reached().MayHaveReachedRemote()
    requires id in Take(w, step).attempts && Take(w, step).attempts[id].Reached().MayHaveReachedRemote()
    ensures var a := w.attempts[id];
            && a.state.status.CommitPrepared? && a.parent.Some?
            && a.candidate == Some(Candidate(id, a.package, a.parent.value)) && Unsent(w, id)
            && Take(w, step).attempts[id].candidate == a.candidate && Take(w, step).wire == w.wire
  {
    hide Durable, Proceed, Choose, Withheld, BranchHeld, Unsent;
    AttemptOf(w, id);
    StepFrame(w, step);
    if step.Go? {
      if ActiveOn(w, id) {
        IntentProceeds(w, step.exchange, id);
      } else {
        ProceedTouchesItsOwn(w, step.exchange, id);
      }
    }
  }

  lemma IntentProceeds(w: World, exchange: Exchange, id: AttemptId)
    requires Inv(w) && id in w.attempts && !w.attempts[id].Reached().MayHaveReachedRemote() && ActiveOn(w, id)
    requires id in Proceed(w, exchange).attempts && Proceed(w, exchange).attempts[id].Reached().MayHaveReachedRemote()
    ensures var a := w.attempts[id];
            && a.state.status.CommitPrepared? && a.parent.Some?
            && a.candidate == Some(Candidate(id, a.package, a.parent.value)) && Unsent(w, id)
            && Proceed(w, exchange).attempts[id].candidate == a.candidate && Proceed(w, exchange).wire == w.wire
  {
    hide Durable, Unsent, AdvanceTo, FailOn;
    AttemptOf(w, id);
    match w.activity
    case Working(_, to, at) => IntentWorks(w, exchange, id, to, at);
    case Failing(_, reason) => FailingStaysEarly(w, id, reason);
    case _ =>
  }

  lemma FailingStaysEarly(w: World, id: AttemptId, reason: StateReason)
    requires id in w.attempts && Coherent(w.attempts[id].state) && !w.attempts[id].Reached().MayHaveReachedRemote()
    ensures id in FailOn(w, id, reason).attempts
    ensures !FailOn(w, id, reason).attempts[id].Reached().MayHaveReachedRemote()
  {
  }

  lemma IntentWorks(w: World, exchange: Exchange, id: AttemptId, to: Publication, at: Point)
    requires Inv(w) && w.activity == Working(id, to, at) && !w.attempts[id].Reached().MayHaveReachedRemote()
    requires id in Proceed(w, exchange).attempts && Proceed(w, exchange).attempts[id].Reached().MayHaveReachedRemote()
    ensures at.Intending?
    ensures var a := w.attempts[id];
            && a.state.status.CommitPrepared? && a.parent.Some?
            && a.candidate == Some(Candidate(id, a.package, a.parent.value)) && Unsent(w, id)
            && Proceed(w, exchange).attempts[id].candidate == a.candidate && Proceed(w, exchange).wire == w.wire
  {
    hide Durable, Unsent, AdvanceTo;
    AttemptOf(w, id);
    var failing := Failing(id, INTERNAL_ERROR);
    match at
    case Opened => AdvanceToEffect(w, id, Reconciling, Working(id, to, AskingHead), failing);
    case Applying(parent) => AdvanceToEffect(w, id, Verifying, Working(id, to, Checking(parent)), failing);
    case Checking(parent) => AdvanceToEffect(w, id, CommitPrepared, Working(id, to, Preparing(parent)), failing);
    case Intending(parent) =>
      AdvanceToEffect(w, id, PushPending, Working(id, to, Leasing(parent)), failing);
      NothingLeftYet(w, id);
    case _ =>
  }

  /** The step sends this attempt's push. */
  predicate Sends(w: World, step: Step, id: AttemptId) {
    step == Go(Succeeds) && w.activity.Working? && w.activity.id == id && w.activity.at.Pushing?
  }

  /**
   * What is on its way after a step and was not before is the durable candidate of the attempt at work, for
   * its own branch, leased on the candidate's parent, or on the branch being absent where it may be created.
   */
  lemma SentUnderLease(w: World, step: Step, p: Push)
    requires Inv(w) && p in Take(w, step).wire && p !in w.wire
    ensures Sends(w, step, p.attempt) && p.attempt in w.attempts
    ensures var a := w.attempts[p.attempt];
            && a.state.status.PushPending? && p.branch == a.branch && a.candidate == Some(p.commit)
            && p.commit.Candidate? && a.parent == Some(p.commit.parent)
            && (if p.lease.Some? then p.lease.value == p.commit.parent else w.activity.publication.createIfAbsent)
  {
    hide Durable, Proceed, Choose, Withheld, BranchHeld, Unsent;
    if step.Go? {
      ProceedFrame(w, step.exchange);
      AttemptOf(w, w.activity.id);
      PushingProceeds(w, step.exchange);
    }
  }

  lemma PushingProceeds(w: World, exchange: Exchange)
    requires w.activity.Working? && w.activity.at.Pushing? && w.activity.id in w.attempts
    ensures var id, to, at := w.activity.id, w.activity.publication, w.activity.at;
            var candidate := Candidate(id, w.attempts[id].package, at.parent);
            Proceed(w, exchange).wire ==
              if exchange.Succeeds? then w.wire + {Push(id, to.branch, at.lease, candidate)} else w.wire
  {
  }

  /** The attempt's worker is gone or past sending. */
  predicate PastSending(w: World, id: AttemptId) {
    && id in w.attempts
    && !(w.activity.Working? && w.activity.id == id && !w.activity.at.Sent? && !w.activity.at.Resolving?)
  }

  lemma WorkMovesOn(w: World, exchange: Exchange)
    requires w.activity.Working? && (w.activity.at.Sent? || w.activity.at.Resolving?)
    ensures var next := Proceed(w, exchange).activity; next.Working? ==> next.at.Sent? || next.at.Resolving?
  {
  }

  lemma PastSendingStep(w: World, step: Step, id: AttemptId)
    requires PastSending(w, id)
    ensures PastSending(Take(w, step), id)
  {
    hide Proceed, Choose, Withheld, BranchHeld;
    StepFrame(w, step);
    if step.Go? {
      ProceedStaysOn(w, step.exchange);
      if w.activity.Working? && ActiveOn(w, id) {
        WorkMovesOn(w, step.exchange);
      } else if !w.activity.Working? {
        OnlyWorkersWork(w, step.exchange);
      }
    }
  }

  lemma {:induction false} PastSendingStays(w: World, run: seq<Step>, id: AttemptId, i: nat, j: nat)
    requires i <= j <= |run| && PastSending(Runs(w, run[..i]), id)
    ensures PastSending(Runs(w, run[..j]), id)
    decreases j
  {
    hide Take, PastSending;
    if i < j {
      PastSendingStays(w, run, id, i, j - 1);
      assert run[..j][..j - 1] == run[..j - 1];
      PastSendingStep(Runs(w, run[..j - 1]), run[j - 1], id);
    }
  }

  lemma SendingIsPast(w: World, step: Step, id: AttemptId)
    requires Inv(w) && Sends(w, step, id)
    ensures PastSending(Take(w, step), id)
  {
    hide Durable;
  }

  /** No attempt sends twice, in any run, however often the process restarts. */
  lemma SendsOnce(w: World, run: seq<Step>, id: AttemptId, i: nat, j: nat)
    requires Initial(w) && i < j < |run| && Sends(Runs(w, run[..i]), run[i], id)
    ensures !Sends(Runs(w, run[..j]), run[j], id)
  {
    hide Take, Inv, Initial;
    RunKeeps(w, run[..i]);
    SendingIsPast(Runs(w, run[..i]), run[i], id);
    assert run[..i + 1][..i] == run[..i];
    PastSendingStays(w, run, id, i + 1, j);
  }
}
