/** When a branch receives the same work twice: only after losing it in between. */
module PublicationContent {
  import opened Wrappers
  import opened TaskLifecycle
  import opened RepositoryPolicies
  import opened Publications
  import opened PublicationSafety
  import opened PublicationLaws
  import opened PublicationOutcomes

  /** The head of the branch holds the package's changes. */
  predicate HoldsWork(w: World, branch: Branch, package: Package) {
    w.Head(branch).Some? && Contains(w.Head(branch).value, package)
  }

  /** The step leaves the branch without changes its head had. */
  predicate TakesOut(w: World, step: Step, branch: Branch, package: Package) {
    HoldsWork(w, branch, package) && !HoldsWork(Take(w, step), branch, package)
  }

  /** The step lands a candidate of the package on the branch. */
  predicate LandsPackage(w: World, step: Step, branch: Branch, package: Package) {
    && step.Deliver? && step.push.commit.Candidate? && step.push.commit.package == package && step.push.branch == branch
    && Lands(w, step, step.push.commit)
  }

  /** In every run, what a candidate was built on did not hold its package: an empty candidate is never made. */
  lemma CandidateAddsItsWork(w: World, run: seq<Step>, id: AttemptId)
    requires Initial(w) && id in Runs(w, run).attempts && Runs(w, run).attempts[id].parent.Some?
    ensures var a := Runs(w, run).attempts[id]; !Contains(a.parent.value, a.package)
    ensures var a := Runs(w, run).attempts[id]; a.candidate.Some? && Contains(a.candidate.value, a.package)
  {
    RunKeeps(w, run);
    AttemptOf(Runs(w, run), id);
  }

  lemma LandingAddsWork(w: World, step: Step, branch: Branch, package: Package)
    requires Inv(w) && LandsPackage(w, step, branch, package)
    ensures !HoldsWork(w, branch, package) && HoldsWork(Take(w, step), branch, package)
  {
    CarriesItsOwn(w, step.push);
    assert PushSound(w, step.push);
    AttemptOf(w, step.push.attempt);
  }

  /** The step lands a candidate of another package, which undoes this one, on the branch. */
  predicate LandsUndoing(w: World, step: Step, branch: Branch, package: Package) {
    && step.Deliver? && step.push.commit.Candidate? && step.push.branch == branch && Lands(w, step, step.push.commit)
    && package.name in step.push.commit.package.undoes && package.name != step.push.commit.package.name
  }

  /**
   * A branch that holds the work loses it exactly when another writer sets it to a commit without it or deletes
   * it, or a package that undoes it lands there.
   */
  lemma TakenOutBy(w: World, step: Step, branch: Branch, package: Package)
    requires Inv(w) && HoldsWork(w, branch, package)
    ensures TakesOut(w, step, branch, package) <==>
      || (step.Write? && step.branch == branch && w.IsKnown(step.commit) && !Contains(step.commit, package))
      || step == Delete(branch)
      || LandsUndoing(w, step, branch, package)
  {
    hide Durable, Proceed, Choose, Withheld, BranchHeld, ChangeTask, Content;
    if step.Go? {
      ProceedFrame(w, step.exchange);
    } else if step.Command? {
      CommandFrame(w, step.task, step.request);
    } else if step.Deliver? && step.push in w.wire {
      LandedContent(w, step.push, package.name);
    }
  }

  /** What a landing candidate holds: what its lease held less what its package undoes, and its package. */
  lemma LandedContent(w: World, push: Push, name: PackageName)
    requires Inv(w) && push in w.wire
    ensures push.commit.Candidate?
    ensures push.lease.Some? ==> push.lease.value == push.commit.parent
    ensures name in Content(push.commit) <==>
      name == push.commit.package.name || (name in Content(push.commit.parent) && name !in push.commit.package.undoes)
  {
    CarriesItsOwn(w, push);
    assert PushSound(w, push);
    AttemptOf(w, push.attempt);
  }

  /**
   * In every run a landing adds its package to what the branch, or the base of a branch it creates, held, and
   * takes out what the package undoes: nothing else comes or goes.
   */
  lemma LandingChangesExactly(w: World, run: seq<Step>, step: Step, commit: Commit, name: PackageName)
    requires Initial(w) && Lands(Runs(w, run), step, commit)
    ensures commit.Candidate? && Take(Runs(w, run), step).Head(step.push.branch) == Some(commit)
    ensures var before := Runs(w, run).Head(step.push.branch);
            var held := Content(if before.Some? then before.value else commit.parent);
            name in Content(commit) <==> name == commit.package.name || (name in held && name !in commit.package.undoes)
  {
    hide Content, Take;
    RunKeeps(w, run);
    LandsOnItsParent(w, run, step, commit);
    LandedContent(Runs(w, run), step.push, name);
  }

  lemma {:induction false} LostInBetween(w: World, run: seq<Step>, branch: Branch, package: Package, i: nat, j: nat)
    returns (k: nat)
    requires i < j <= |run|
    requires HoldsWork(Runs(w, run[..i]), branch, package) && !HoldsWork(Runs(w, run[..j]), branch, package)
    ensures i <= k < j && TakesOut(Runs(w, run[..k]), run[k], branch, package)
    decreases j
  {
    hide Take, HoldsWork;
    k := j - 1;
    assert run[..j][..k] == run[..k];
    if HoldsWork(Runs(w, run[..k]), branch, package) {
      return;
    }
    if i == k {
      assert false;
    }
    k := LostInBetween(w, run, branch, package, i, k);
  }

  /** Between two landings of one package on one branch, some step took its work out again. */
  lemma LandsAgainAfterRemoval(w: World, run: seq<Step>, branch: Branch, package: Package, i: nat, j: nat)
    returns (k: nat)
    requires Initial(w) && i < j < |run|
    requires LandsPackage(Runs(w, run[..i]), run[i], branch, package)
    requires LandsPackage(Runs(w, run[..j]), run[j], branch, package)
    ensures i < k < j && TakesOut(Runs(w, run[..k]), run[k], branch, package)
  {
    hide Take, Inv, Initial, HoldsWork, LandsPackage;
    RunKeeps(w, run[..i]);
    RunKeeps(w, run[..j]);
    LandingAddsWork(Runs(w, run[..i]), run[i], branch, package);
    LandingAddsWork(Runs(w, run[..j]), run[j], branch, package);
    assert run[..i + 1][..i] == run[..i];
    if i + 1 == j {
      assert false;
    }
    k := LostInBetween(w, run, branch, package, i + 1, j);
  }

  /** A candidate the remote has seen was once landed, on the branch of its attempt. */
  lemma {:induction false} SeenWasLanded(w: World, run: seq<Step>, commit: Commit) returns (k: nat)
    requires Initial(w) && commit.Candidate? && Seen(Runs(w, run), commit)
    ensures k < |run| && Lands(Runs(w, run[..k]), run[k], commit)
    decreases |run|
  {
    hide Take, Inv;
    if run == [] {
      NothingSeenYet(w, commit);
    } else {
      var init, last := run[..|run| - 1], |run| - 1;
      if Seen(Runs(w, init), commit) {
        k := SeenWasLanded(w, init, commit);
        assert run[..k] == init[..k] && run[k] == init[k];
      } else {
        FirstSeen(Runs(w, init), run[last], commit);
        k := last;
      }
    }
  }

  lemma NothingSeenYet(w: World, commit: Commit)
    requires Initial(w) && commit.Candidate?
    ensures !Seen(w, commit)
  {
  }

  lemma FirstSeen(w: World, step: Step, commit: Commit)
    requires commit.Candidate? && !Seen(w, commit) && Seen(Take(w, step), commit)
    ensures Lands(w, step, commit)
  {
    hide Proceed, Choose, Withheld, BranchHeld, ChangeTask;
    if step.Go? {
      ProceedFrame(w, step.exchange);
    } else if step.Command? {
      CommandFrame(w, step.task, step.request);
    }
    var h :| h in Take(w, step).held && h.commit == commit;
    assert h !in w.held;
  }

  lemma {:induction false} AttemptStays(w: World, run: seq<Step>, id: AttemptId, k: nat)
    requires k <= |run| && id in Runs(w, run[..k]).attempts
    ensures id in Runs(w, run).attempts
    ensures Runs(w, run).attempts[id].branch == Runs(w, run[..k]).attempts[id].branch
    ensures Runs(w, run).attempts[id].package == Runs(w, run[..k]).attempts[id].package
    decreases |run|
  {
    hide Take;
    if k == |run| {
      assert run[..k] == run;
    } else {
      var init := run[..|run| - 1];
      assert init[..k] == run[..k];
      AttemptStays(w, init, id, k);
      StepFrame(Runs(w, init), run[|run| - 1]);
    }
  }

  /** The landing behind a published attempt. */
  lemma PublishedLanded(w: World, run: seq<Step>, id: AttemptId) returns (k: nat)
    requires Initial(w) && IsPublished(Runs(w, run), id)
    ensures var a := Runs(w, run).attempts[id];
            k < |run| && LandsPackage(Runs(w, run[..k]), run[k], a.branch, a.package)
            && run[k].push.commit.attempt == id
  {
    hide Take, Inv, Initial;
    var v := Runs(w, run);
    PublishedWasThere(w, run, id);
    RunKeeps(w, run);
    CandidateIsOwn(v, id);
    var candidate := v.attempts[id].candidate.value;
    assert Seen(v, candidate);
    k := SeenWasLanded(w, run, candidate);
    RunKeeps(w, run[..k]);
    PushIsOwn(Runs(w, run[..k]), run[k].push);
    AttemptStays(w, run, id, k);
  }

  lemma CandidateIsOwn(w: World, id: AttemptId)
    requires Inv(w) && id in w.attempts && w.attempts[id].candidate.Some?
    ensures w.attempts[id].candidate.value.Candidate? && w.attempts[id].candidate.value.attempt == id
    ensures w.attempts[id].candidate.value.package == w.attempts[id].package
  {
    AttemptOf(w, id);
  }

  lemma PushIsOwn(w: World, push: Push)
    requires Inv(w) && push in w.wire
    ensures push.commit.Candidate? && push.attempt == push.commit.attempt && push.attempt in w.attempts
    ensures push.branch == w.attempts[push.attempt].branch && push.commit.package == w.attempts[push.attempt].package
  {
    CarriesItsOwn(w, push);
    assert PushSound(w, push);
    AttemptOf(w, push.attempt);
  }

  /**
   * In every run, if two attempts publish one package to one branch, then between their landings some step
   * took the work out of the branch again.
   */
  lemma PublishedTwiceAfterRemoval(w: World, run: seq<Step>, i: AttemptId, j: AttemptId) returns (m: nat, k: nat, n: nat)
    requires Initial(w) && IsPublished(Runs(w, run), i) && IsPublished(Runs(w, run), j) && i != j
    requires Runs(w, run).attempts[i].package == Runs(w, run).attempts[j].package
    requires Runs(w, run).attempts[i].branch == Runs(w, run).attempts[j].branch
    ensures var a := Runs(w, run).attempts[i];
            && m < k < n < |run|
            && LandsPackage(Runs(w, run[..m]), run[m], a.branch, a.package)
            && TakesOut(Runs(w, run[..k]), run[k], a.branch, a.package)
            && LandsPackage(Runs(w, run[..n]), run[n], a.branch, a.package)
  {
    hide Runs, Initial, LandsPackage, TakesOut;
    var a := Runs(w, run).attempts[i];
    m := PublishedLanded(w, run, i);
    n := PublishedLanded(w, run, j);
    if n < m {
      m, n := n, m;
    }
    k := LandsAgainAfterRemoval(w, run, a.branch, a.package, m, n);
  }
}
