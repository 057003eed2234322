/** Exactly which interrupted publications can still be completed, and by whom. */
module PublicationOutcomes {
  import opened Wrappers
  import opened TaskLifecycle
  import opened RepositoryPolicies
  import opened Publications
  import opened PublicationSafety
  import opened PublicationLaws
  import opened PublicationGrounds
  import opened PublicationRecovery
  import opened PublicationTasks

  predicate IsPublished(w: World, id: AttemptId) {
    id in w.attempts && w.attempts[id].state.status.Published?
  }

  /** Its candidate has left this machine: the remote has had it on some branch, or a push of it is on its way. */
  ghost predicate HasLeft(w: World, id: AttemptId) {
    id in w.attempts && w.attempts[id].candidate.Some? && Out(w, w.attempts[id].candidate.value)
  }

  // ---------------------------------------------- what never left never lands

  /** The candidate is unknown outside, and nobody is at work who could send it. */
  ghost predicate KeptBack(w: World, id: AttemptId) {
    && id in w.attempts && w.attempts[id].candidate.Some? && w.attempts[id].candidate.value.Candidate?
    && w.attempts[id].candidate.value.attempt == id
    && !Seen(w, w.attempts[id].candidate.value) && (forall p | p in w.wire :: p.commit != w.attempts[id].candidate.value)
    && !(ActiveOn(w, id) && w.activity.Working?)
  }

  lemma KeptBackProceeds(w: World, exchange: Exchange, id: AttemptId)
    requires KeptBack(w, id)
    ensures KeptBack(Proceed(w, exchange), id)
  {
    hide Proceed, Seen;
    ProceedFrame(w, exchange);
    ProceedStaysOn(w, exchange);
    var v := Proceed(w, exchange);
    SeenSame(w, v, w.attempts[id].candidate.value);
    assert Follows(w.attempts[id], v.attempts[id]);
    if !w.activity.Working? {
      OnlyWorkersWork(w, exchange);
    } else if w.activity.at.Pushing? {
      PushOfAnother(w, exchange, w.attempts[id].candidate.value);
    }
  }

  lemma SeenSame(w: World, v: World, commit: Commit)
    requires v.held == w.held
    ensures Seen(v, commit) <==> Seen(w, commit)
  {
  }

  lemma PushOfAnother(w: World, exchange: Exchange, commit: Commit)
    requires w.activity.Working? && w.activity.at.Pushing?
    requires commit.Candidate? && commit.attempt != w.activity.id
    ensures forall p | p in Proceed(w, exchange).wire && p !in w.wire :: p.commit != commit
  {
  }

  lemma KeptBackStep(w: World, step: Step, id: AttemptId)
    requires KeptBack(w, id)
    ensures KeptBack(Take(w, step), id)
  {
    hide Proceed, Choose, Withheld, BranchHeld;
    if step.Go? {
      KeptBackProceeds(w, step.exchange, id);
    } else {
      StepFrame(w, step);
    }
  }

  lemma {:induction false} KeptBackStays(w: World, run: seq<Step>, id: AttemptId)
    requires KeptBack(w, id)
    ensures KeptBack(Runs(w, run), id)
    decreases |run|
  {
    hide Take, KeptBack;
    if run != [] {
      KeptBackStays(w, run[..|run| - 1], id);
      KeptBackStep(Runs(w, run[..|run| - 1]), run[|run| - 1], id);
    }
  }

  lemma {:induction false} ReachedStays(w: World, run: seq<Step>, id: AttemptId)
    requires Inv(w) && id in w.attempts && w.attempts[id].Reached().MayHaveReachedRemote()
    ensures id in Runs(w, run).attempts && Runs(w, run).attempts[id].Reached().MayHaveReachedRemote()
    decreases |run|
  {
    hide Take, Inv;
    if run != [] {
      var v := Runs(w, run[..|run| - 1]);
      ReachedStays(w, run[..|run| - 1], id);
      RunKeepsInv(w, run[..|run| - 1]);
      StepFrame(v, run[|run| - 1]);
      AttemptIsCoherent(v, id);
      assert Follows(v.attempts[id], Take(v, run[|run| - 1]).attempts[id]);
    }
  }

  lemma AttemptIsCoherent(w: World, id: AttemptId)
    requires Inv(w) && id in w.attempts
    ensures Coherent(w.attempts[id].state)
  {
    AttemptOf(w, id);
  }

  /** A pending push whose candidate never left is pending for ever, and owns its branch for ever. */
  lemma NeverLeftNeverPublished(w: World, run: seq<Step>, id: AttemptId)
    requires Inv(w) && w.activity.Idle? && id in w.attempts && w.attempts[id].AwaitsResolution() && !HasLeft(w, id)
    ensures !IsPublished(Runs(w, run), id) && id in Runs(w, run).attempts && Runs(w, run).attempts[id].Holds()
  {
    hide Runs;
    AttemptOf(w, id);
    assert KeptBack(w, id);
    var v := Runs(w, run);
    KeptBackStays(w, run, id);
    RunKeepsInv(w, run);
    ReachedStays(w, run, id);
    hide Durable;
    AttemptOf(v, id);
    assert forall h | h in v.held :: h.commit != v.attempts[id].candidate.value;
  }

  // ------------------------------------------------- what has left can land

  lemma WriteShows(w: World, branch: Branch, commit: Commit, id: AttemptId)
    requires w.IsKnown(commit) && id in w.attempts
    ensures var v := Take(w, Write(branch, commit));
            v == w.WithHead(branch, commit) && v.Head(branch) == Some(commit)
  {
  }

  /** Some other writer, or the push on its way, puts the candidate at the head of its branch. */
  lemma CandidateCanLand(w: World, id: AttemptId, bases: set<Branch>) returns (run: seq<Step>)
    requires Inv(w) && Grounded(w, bases) && w.activity.Idle? && id in w.attempts
    requires w.attempts[id].AwaitsResolution() && HasLeft(w, id)
    ensures var v := Runs(w, run);
            && v.activity.Idle? && id in v.attempts && v.attempts[id] == w.attempts[id] && v.policy == w.policy
            && v.Head(w.attempts[id].branch) == w.attempts[id].candidate
  {
    var a := w.attempts[id];
    var commit := a.candidate.value;
    AttemptOf(w, id);
    if p :| p in w.wire && p.commit == commit {
      CarriesItsOwn(w, p);
      assert PushSound(w, p);
      if p.lease.Some? {
        ParentIsKnown(w, id, bases);
        run := [Write(p.branch, p.lease.value)] + [Deliver(p)];
        LandsAfter(w, Write(p.branch, p.lease.value), p);
      } else {
        run := [Delete(p.branch)] + [Deliver(p)];
        LandsAfter(w, Delete(p.branch), p);
      }
    } else {
      if b :| b in w.remote && w.remote[b] == commit {
        HeadIsHeld(w, b);
      }
      var h :| h in w.held && h.commit == commit;
      run := [Write(a.branch, commit)];
      OneStep(w, Write(a.branch, commit));
      WriteShows(w, a.branch, commit, id);
    }
  }

  lemma ParentIsKnown(w: World, id: AttemptId, bases: set<Branch>)
    requires Grounded(w, bases) && id in w.attempts && w.attempts[id].parent.Some?
    ensures w.IsKnown(w.attempts[id].parent.value)
  {
    assert HeldOn(w, w.attempts[id].branch, bases, w.attempts[id].parent.value);
  }

  lemma LandsAfter(w: World, first: Step, p: Push)
    requires p in w.wire
    requires (first.Write? && first.branch == p.branch && p.lease == Some(first.commit) && w.IsKnown(first.commit))
             || (first == Delete(p.branch) && p.lease.None?)
    ensures var v := Runs(w, [first] + [Deliver(p)]);
            && v.activity == w.activity && v.attempts == w.attempts && v.policy == w.policy
            && v.Head(p.branch) == Some(p.commit)
  {
    OneStep(w, first);
    RunsOneMore(w, [first], Deliver(p));
  }

  /** From there recovery publishes it. */
  lemma HasLeftCanBePublished(w: World, id: AttemptId, bases: set<Branch>) returns (run: seq<Step>)
    requires Inv(w) && Grounded(w, bases) && w.activity.Idle? && id in w.attempts
    requires w.attempts[id].AwaitsResolution() && HasLeft(w, id)
    ensures IsPublished(Runs(w, run), id)
  {
    hide Inv, Runs, Take;
    var landed := CandidateCanLand(w, id, bases);
    RunKeepsInv(w, landed);
    var recovery := RecoveryDiscovers(Runs(w, landed), id);
    RunsAppend(w, landed, recovery);
    run := landed + recovery;
  }

  // ------------------------------------------------------ the exact conditions

  /**
   * In any reachable world with nobody at work, an unpublished attempt is published in some run exactly when
   * its push is pending and its candidate has left this machine.
   */
  lemma PublishableExactly(start: World, past: seq<Step>, id: AttemptId)
    requires Initial(start) && Runs(start, past).activity.Idle?
    requires id in Runs(start, past).attempts && !IsPublished(Runs(start, past), id)
    ensures var w := Runs(start, past);
            (exists run :: IsPublished(Runs(w, run), id)) <==> w.attempts[id].AwaitsResolution() && HasLeft(w, id)
  {
    hide Runs, Take, Inv, Initial, Grounded, HasLeft;
    var w := Runs(start, past);
    RunKeeps(start, past);
    RunIsGrounded(start, past);
    if w.attempts[id].AwaitsResolution() && HasLeft(w, id) {
      var run := HasLeftCanBePublished(w, id, Targets(start, past));
    } else {
      forall run ensures !IsPublished(Runs(w, run), id) {
        if w.attempts[id].AwaitsResolution() {
          NeverLeftNeverPublished(w, run, id);
        } else {
          DormantForever(w, run, id);
        }
      }
    }
  }

  lemma PublishedHoldsNothing(w: World, id: AttemptId)
    requires IsPublished(w, id)
    ensures !w.attempts[id].Holds()
  {
  }

  /**
   * In any reachable world with nobody at work, an attempt that owns its branch owns it in every run exactly
   * when it is locked, or its candidate never left this machine.
   */
  lemma KeepsItsBranchExactly(start: World, past: seq<Step>, id: AttemptId)
    requires Initial(start) && Runs(start, past).activity.Idle?
    requires id in Runs(start, past).attempts && Runs(start, past).attempts[id].Holds()
    ensures var w := Runs(start, past);
            (forall run :: id in Runs(w, run).attempts && Runs(w, run).attempts[id].Holds())
            <==> Locked(w, id) || !HasLeft(w, id)
  {
    hide Runs, Take, Inv, Initial, Grounded, HasLeft;
    var w := Runs(start, past);
    RunKeeps(start, past);
    RunIsGrounded(start, past);
    if Locked(w, id) {
      forall run ensures id in Runs(w, run).attempts && Runs(w, run).attempts[id].Holds() {
        DormantForever(w, run, id);
      }
    } else if !HasLeft(w, id) {
      forall run ensures id in Runs(w, run).attempts && Runs(w, run).attempts[id].Holds() {
        NeverLeftNeverPublished(w, run, id);
      }
    } else {
      var run := HasLeftCanBePublished(w, id, Targets(start, past));
      PublishedHoldsNothing(Runs(w, run), id);
    }
  }
}
