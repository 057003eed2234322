/** The tasks that publications carry: when they become published, and when they never will. */
module PublicationTasks {
  import opened Wrappers
  import opened TaskLifecycle
  import opened RepositoryPolicies
  import opened Publications
  import opened PublicationLaws

  // -------------------------------------------------------- runs, step by step

  lemma RunsOneMore(w: World, run: seq<Step>, step: Step)
    ensures Runs(w, run + [step]) == Take(Runs(w, run), step)
  {
    assert (run + [step])[..|run|] == run;
  }

  lemma OneStep(w: World, step: Step)
    ensures Runs(w, [step]) == Take(w, step)
  {
    assert [step][..0] == [];
  }

  lemma {:induction false} RunsAppend(w: World, a: seq<Step>, b: seq<Step>)
    ensures Runs(w, a + b) == Runs(Runs(w, a), b)
    decreases |b|
  {
    hide Take;
    if b == [] {
      assert a + b == a;
    } else {
      var n := |b| - 1;
      RunsAppend(w, a, b[..n]);
      assert a + b == (a + b[..n]) + [b[n]];
      RunsOneMore(w, a + b[..n], b[n]);
    }
  }

  lemma FromStart(w: World, first: Step, rest: seq<Step>)
    ensures Runs(w, [first] + rest) == Runs(Take(w, first), rest)
  {
    hide Take;
    RunsAppend(w, [first], rest);
    OneStep(w, first);
  }

  // ------------------------------------------------- what becomes of a task

  predicate TaskPublished(w: World, task: TaskId) {
    task in w.tasks && w.tasks[task].status.Published?
  }

  /** On the way to publication, or there. */
  predicate OnPath(tasks: map<TaskId, State>, task: TaskId) {
    task in tasks && tasks[task].status.Position().Some?
  }

  /** Blocked, cancelled or superseded. */
  predicate OffPath(w: World, task: TaskId) {
    task in w.tasks && w.tasks[task].status.Position().None?
  }

  /** The activity's next write makes this task published, as part of this attempt's publication. */
  predicate Marks(w: World, step: Step, id: AttemptId, task: TaskId) {
    && step == Go(Succeeds) && w.activity.Confirming? && w.activity.id == id && id in w.attempts
    && w.activity.stage.Mark? && w.activity.stage.rest != [] && w.activity.stage.rest[0] == task
    && task in w.tasks && w.tasks[task].status.RemoteConfirmed?
  }

  /** The work is seen merged on the target by other means. */
  predicate Merges(w: World, step: Step, task: TaskId) {
    && step == Command(task, Transition(Published, None)) && w.activity.Idle?
    && task in w.tasks && w.tasks[task].status.RemoteConfirmed?
  }

  lemma StopMoves(w: World, id: AttemptId, reason: StateReason, rest: seq<TaskId>, task: TaskId)
    ensures var v := StopTask(w, id, reason, rest);
            && v.tasks.Keys == w.tasks.Keys
            && (task in w.tasks ==>
                  v.tasks[task] == w.tasks[task]
                  || (&& v.tasks[task].status.Blocked? && w.tasks[task].status.Position().Some?
                      && !w.tasks[task].status.Published?))
  {
  }

  lemma MarkMoves(w: World, id: AttemptId, rest: seq<TaskId>, recovering: bool, refused: Activity, task: TaskId)
    ensures var v := MarkTask(w, id, rest, recovering, refused);
            && v.tasks.Keys == w.tasks.Keys
            && (task in w.tasks ==>
                  v.tasks[task] == w.tasks[task]
                  || (&& rest != [] && rest[0] == task && w.tasks[task].status.Position().Some?
                      && w.tasks[task].status.Next() == Some(v.tasks[task].status)))
            && (rest != [] && rest[0] == task && task in w.tasks && w.tasks[task].status.RemoteConfirmed? ==>
                  v.tasks[task].status.Published?)
  {
  }

  lemma CommandMoves(w: World, asked: TaskId, request: Request, task: TaskId)
    ensures var v := ChangeTask(w, asked, request);
            && v.tasks.Keys == w.tasks.Keys
            && (OffPath(w, task) ==> OffPath(v, task))
            && (TaskPublished(v, task) <==> TaskPublished(w, task) || Merges(w, Command(asked, request), task))
  {
  }

  lemma OthersLeaveTasks(w: World, step: Step)
    requires !step.Command?
    requires !(step == Go(Succeeds) && (w.activity.Stopping? || (w.activity.Confirming? && w.activity.stage.Mark?)))
    ensures Take(w, step).tasks == w.tasks
  {
    hide Proceed, MovesTasks;
    StepFrame(w, step);
    NothingMoves(w);
    if step.Go? && !step.exchange.Succeeds? {
      FailedExchangeLeavesTasks(w, step.exchange);
    }
  }

  lemma FailedExchangeLeavesTasks(w: World, exchange: Exchange)
    requires !exchange.Succeeds?
    ensures Proceed(w, exchange).tasks == w.tasks
  {
    hide WorkOn, ConfirmOn, FailOn, AskBranch, FetchBranch;
  }

  lemma NothingMoves(w: World)
    ensures MovesTasks(w.activity) <==> w.activity.Stopping? || (w.activity.Confirming? && w.activity.stage.Mark?)
  {
  }

  /** A step publishes a task exactly when it marks it for an attempt, or a merge is seen; none takes it back. */
  lemma PublishedExactly(w: World, step: Step, task: TaskId)
    ensures TaskPublished(Take(w, step), task) <==>
      TaskPublished(w, task) || (exists id :: Marks(w, step, id, task)) || Merges(w, step, task)
    ensures Take(w, step).tasks.Keys == w.tasks.Keys
    ensures OffPath(w, task) ==> OffPath(Take(w, step), task)
  {
    hide StopTask, ChangeTask, MarkTask, OpenAttempt, DeliverPush, AdvanceTo, WorkOn, FailOn, AskBranch, FetchBranch;
    if step.Command? {
      CommandMoves(w, step.task, step.request, task);
    } else if step == Go(Succeeds) && w.activity.Stopping? {
      StopMoves(w, w.activity.id, w.activity.reason, w.activity.rest, task);
    } else if step == Go(Succeeds) && w.activity.Confirming? && w.activity.stage.Mark? {
      MarkingPublishes(w, task);
    } else {
      OthersLeaveTasks(w, step);
    }
  }

  lemma MarkingPublishes(w: World, task: TaskId)
    requires w.activity.Confirming? && w.activity.stage.Mark?
    ensures var v := Take(w, Go(Succeeds));
            && (TaskPublished(v, task) <==>
                  TaskPublished(w, task) || exists id :: Marks(w, Go(Succeeds), id, task))
            && v.tasks.Keys == w.tasks.Keys
            && (OffPath(w, task) ==> OffPath(v, task))
  {
    hide MarkTask;
    var id, recovering := w.activity.id, w.activity.recovering;
    MarkMoves(w, id, w.activity.stage.rest, recovering, if recovering then Idle else Failing(id, INTERNAL_ERROR), task);
    assert Marks(w, Go(Succeeds), id, task) <==> exists other :: Marks(w, Go(Succeeds), other, task);
  }

  /** A task that was blocked, cancelled or superseded is so in every run: no publication ever completes it. */
  lemma {:induction false} OffPathForever(w: World, run: seq<Step>, task: TaskId)
    requires OffPath(w, task)
    ensures OffPath(Runs(w, run), task) && !TaskPublished(Runs(w, run), task)
    decreases |run|
  {
    hide Take;
    if run != [] {
      OffPathForever(w, run[..|run| - 1], task);
      PublishedExactly(Runs(w, run[..|run| - 1]), run[|run| - 1], task);
    }
  }

  /** Every task the package carries is published. */
  predicate Delivered(w: World, package: Package) {
    forall task | task in package.tasks :: TaskPublished(w, task)
  }

  /** A package with one such task is therefore delivered in no run. */
  lemma BlockedNeverDelivered(w: World, run: seq<Step>, package: Package, task: TaskId)
    requires task in package.tasks && OffPath(w, task)
    ensures !Delivered(Runs(w, run), package)
  {
    OffPathForever(w, run, task);
  }

  // ------------------------------------------------------- marking, to its end

  const PUBLISHED := State(Published, None, None)

  /** The tasks once as many as possible of these, in order, are published. */
  function Marked(tasks: map<TaskId, State>, rest: seq<TaskId>): map<TaskId, State> {
    if rest == [] || !OnPath(tasks, rest[0]) then tasks
    else Marked(if tasks[rest[0]].status.Published? then tasks else tasks[rest[0] := PUBLISHED], rest[1..])
  }

  /** The task is among these and none before it, nor it, is off the path or missing. */
  ghost predicate InReach(tasks: map<TaskId, State>, rest: seq<TaskId>, task: TaskId) {
    exists k | 0 <= k < |rest| :: rest[k] == task && forall j | 0 <= j <= k :: OnPath(tasks, rest[j])
  }

  lemma InReachOnwards(tasks: map<TaskId, State>, rest: seq<TaskId>, task: TaskId)
    requires rest != []
    ensures InReach(tasks, rest, task) <==>
      OnPath(tasks, rest[0]) && (rest[0] == task || InReach(tasks, rest[1..], task))
  {
    var later := rest[1..];
    if k :| 0 <= k < |rest| && rest[k] == task && forall j | 0 <= j <= k :: OnPath(tasks, rest[j]) {
      assert OnPath(tasks, rest[0]);
      if k > 0 {
        assert later[k - 1] == task;
        forall j | 0 <= j <= k - 1 ensures OnPath(tasks, later[j]) {
          assert OnPath(tasks, rest[j + 1]);
        }
      }
    }
    if OnPath(tasks, rest[0]) && rest[0] != task && InReach(tasks, later, task) {
      var k :| 0 <= k < |later| && later[k] == task && forall j | 0 <= j <= k :: OnPath(tasks, later[j]);
      forall j | 0 <= j <= k + 1 ensures OnPath(tasks, rest[j]) {
        assert j > 0 ==> rest[j] == later[j - 1];
      }
      assert rest[k + 1] == task;
    }
  }

  lemma InReachAlike(tasks: map<TaskId, State>, others: map<TaskId, State>, rest: seq<TaskId>, task: TaskId)
    requires forall t :: OnPath(tasks, t) <==> OnPath(others, t)
    ensures InReach(tasks, rest, task) <==> InReach(others, rest, task)
  {
  }

  /** What marking publishes: the tasks in reach, and nothing else changes. */
  lemma {:induction false} MarkedExactly(tasks: map<TaskId, State>, rest: seq<TaskId>, task: TaskId)
    ensures Marked(tasks, rest).Keys == tasks.Keys
    ensures task in tasks ==>
      && (Marked(tasks, rest)[task].status.Published? <==> tasks[task].status.Published? || InReach(tasks, rest, task))
      && (!InReach(tasks, rest, task) ==> Marked(tasks, rest)[task] == tasks[task])
    decreases |rest|
  {
    hide InReach, OnPath;
    if rest == [] {
      NothingInReach(tasks, task);
    } else {
      InReachOnwards(tasks, rest, task);
      if OnPath(tasks, rest[0]) {
        OnPathExists(tasks, rest[0]);
        var next := if tasks[rest[0]].status.Published? then tasks else tasks[rest[0] := PUBLISHED];
        PublishingKeepsPaths(tasks, rest[0]);
        InReachAlike(tasks, next, rest[1..], task);
        MarkedExactly(next, rest[1..], task);
      }
    }
  }

  lemma NothingInReach(tasks: map<TaskId, State>, task: TaskId)
    ensures !InReach(tasks, [], task)
  {
  }

  lemma OnPathExists(tasks: map<TaskId, State>, task: TaskId)
    requires OnPath(tasks, task)
    ensures task in tasks
  {
  }

  lemma PublishingKeepsPaths(tasks: map<TaskId, State>, task: TaskId)
    requires OnPath(tasks, task)
    ensures forall t :: OnPath(tasks, t) <==> OnPath(tasks[task := PUBLISHED], t)
  {
  }

  /** Every exchange succeeds. */
  predicate Steady(run: seq<Step>) {
    forall k | 0 <= k < |run| :: run[k] == Go(Succeeds)
  }

  function StatesLeft(tasks: map<TaskId, State>, rest: seq<TaskId>): nat {
    if rest == [] || !OnPath(tasks, rest[0]) then 0
    else 11 - tasks[rest[0]].status.Position().value
  }

  lemma OneWalk(tasks: map<TaskId, State>, rest: seq<TaskId>)
    requires rest != [] && OnPath(tasks, rest[0]) && !tasks[rest[0]].status.Published?
    ensures var s := tasks[rest[0]];
            && s.status.IsAtOrPast(Published) == Some(false) && s.status.Next().Some?
            && Advance(s, s.status.Next().value, None) == Ok(State(s.status.Next().value, None, None))
            && var next := tasks[rest[0] := State(s.status.Next().value, None, None)];
               Marked(next, rest) == Marked(tasks, rest) && StatesLeft(next, rest) < StatesLeft(tasks, rest)
  {
    var s := tasks[rest[0]];
    var next := tasks[rest[0] := State(s.status.Next().value, None, None)];
    assert next[rest[0] := PUBLISHED] == tasks[rest[0] := PUBLISHED];
    if next[rest[0]].status.Published? {
      assert next == tasks[rest[0] := PUBLISHED];
    }
  }

  /** Left alone, the tasks of a published attempt are marked as far as they can be. */
  lemma {:induction false} Marking(w: World, id: AttemptId, rest: seq<TaskId>, recovering: bool) returns (run: seq<Step>)
    requires w.activity == Confirming(id, Mark(rest), recovering)
    requires id in w.attempts && w.attempts[id].state.status.Published?
    ensures Steady(run) && Runs(w, run) == w.(tasks := Marked(w.tasks, rest)).Entered(Idle)
    decreases |rest|, StatesLeft(w.tasks, rest)
  {
    hide Runs, Advance;
    var go := Go(Succeeds);
    var v := Take(w, go);
    OneStep(w, go);
    if rest == [] {
      run := [go];
    } else if !OnPath(w.tasks, rest[0]) {
      run := [go];
      if !recovering {
        RunsOneMore(w, [go], go);
        run := [go] + [go];
      }
    } else if w.tasks[rest[0]].status.Published? {
      var later := Marking(v, id, rest[1..], recovering);
      FromStart(w, go, later);
      run := [go] + later;
    } else {
      OneWalk(w.tasks, rest);
      var later := Marking(v, id, rest, recovering);
      FromStart(w, go, later);
      run := [go] + later;
    }
  }

  // ------------------------------------------------------ blocking, to its end

  /** The tasks once those of these that can be are blocked. */
  function Stopped(tasks: map<TaskId, State>, rest: seq<TaskId>, reason: StateReason): map<TaskId, State> {
    if rest == [] then tasks
    else if rest[0] !in tasks || Advance(tasks[rest[0]], Blocked, Some(reason)).Err? then Stopped(tasks, rest[1..], reason)
    else Stopped(tasks[rest[0] := Advance(tasks[rest[0]], Blocked, Some(reason)).value], rest[1..], reason)
  }

  /** What blocking leaves: none of these on the path but those that are published. */
  lemma {:induction false} StoppedExactly(tasks: map<TaskId, State>, rest: seq<TaskId>, reason: StateReason, task: TaskId)
    ensures Stopped(tasks, rest, reason).Keys == tasks.Keys
    ensures task in tasks ==>
      Stopped(tasks, rest, reason)[task] ==
        if task in rest && OnPath(tasks, task) && !tasks[task].status.Published? then
          State(Blocked, Some(reason), Some(tasks[task].status))
        else tasks[task]
    decreases |rest|
  {
    if rest != [] {
      if rest[0] in tasks && Advance(tasks[rest[0]], Blocked, Some(reason)).Ok? {
        StoppedExactly(tasks[rest[0] := Advance(tasks[rest[0]], Blocked, Some(reason)).value], rest[1..], reason, task);
      } else {
        StoppedExactly(tasks, rest[1..], reason, task);
      }
    }
  }

  /** Left alone, a failure that was recorded blocks the tasks too. */
  lemma {:induction false} Stops(w: World, id: AttemptId, reason: StateReason, rest: seq<TaskId>) returns (run: seq<Step>)
    requires w.activity == Stopping(id, reason, rest)
    ensures Steady(run) && Runs(w, run) == w.(tasks := Stopped(w.tasks, rest, reason)).Entered(Idle)
    decreases |rest|
  {
    hide Runs, Advance;
    var go := Go(Succeeds);
    OneStep(w, go);
    if rest == [] {
      run := [go];
    } else {
      var later := Stops(Take(w, go), id, reason, rest[1..]);
      FromStart(w, go, later);
      run := [go] + later;
    }
  }
}
