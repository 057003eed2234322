/** The states a task or a release attempt passes through on its way to publication. */
module TaskLifecycle {
  import opened Wrappers

  datatype TaskStatus =
    | Planned | Building | Captured | Validated | Queued | Scheduled | Reconciling | Verifying | CommitPrepared
    | PushPending | RemoteConfirmed | Published | Blocked | Cancelled | Superseded
  {
    predicate IsTerminal() {
      Published? || Cancelled? || Superseded?
    }

    predicate MayHaveReachedRemote() {
      PushPending? || RemoteConfirmed? || Published?
    }

    function Position(): Option<nat> {
      match this
      case Planned => Some(0)
      case Building => Some(1)
      case Captured => Some(2)
      case Validated => Some(3)
      case Queued => Some(4)
      case Scheduled => Some(5)
      case Reconciling => Some(6)
      case Verifying => Some(7)
      case CommitPrepared => Some(8)
      case PushPending => Some(9)
      case RemoteConfirmed => Some(10)
      case Published => Some(11)
      case Blocked | Cancelled | Superseded => None
    }

    function Next(): Option<TaskStatus> {
      match this
      case Planned => Some(Building)
      case Building => Some(Captured)
      case Captured => Some(Validated)
      case Validated => Some(Queued)
      case Queued => Some(Scheduled)
      case Scheduled => Some(Reconciling)
      case Reconciling => Some(Verifying)
      case Verifying => Some(CommitPrepared)
      case CommitPrepared => Some(PushPending)
      case PushPending => Some(RemoteConfirmed)
      case RemoteConfirmed => Some(Published)
      case Published | Blocked | Cancelled | Superseded => None
    }

    function IsAtOrPast(other: TaskStatus): Option<bool> {
      if Position().Some? && other.Position().Some? then Some(Position().value >= other.Position().value) else None
    }
  }

  datatype ReasonCode =
    | UserRequested | PrerequisiteCancelled | Conflict | ValidationFailed | DeviceUnavailable
    | AuthenticationRequired | SupersededByRevision | Other(text: string)

  datatype StateReason = StateReason(code: ReasonCode, message: string)

  datatype TransitionError =
    | Terminal(current: TaskStatus, requested: TaskStatus)
    | ReasonRequired(target: TaskStatus)
    | UnexpectedReason(target: TaskStatus)
    | Invalid(current: TaskStatus, requested: TaskStatus, expected: Option<TaskStatus>)
    | InvalidResume(requested: TaskStatus, resume: TaskStatus)
    | CorruptBlockedState
    | NotScheduled(current: TaskStatus)
    | IncoherentPersistedState(status: TaskStatus)

  datatype State = State(status: TaskStatus, reason: Option<StateReason>, blockedFrom: Option<TaskStatus>)

  const PLANNED := State(Planned, None, None)

  function FromBlocked(s: State, target: TaskStatus, reason: Option<StateReason>): Result<State, TransitionError> {
    if target.Cancelled? || target.Superseded? then
      if reason.None? then Err(ReasonRequired(target)) else Ok(State(target, reason, None))
    else if s.blockedFrom.None? then Err(CorruptBlockedState)
    else if target != s.blockedFrom.value then Err(InvalidResume(target, s.blockedFrom.value))
    else if reason.Some? then Err(UnexpectedReason(target))
    else Ok(State(target, None, None))
  }

  function Advance(s: State, target: TaskStatus, reason: Option<StateReason>): Result<State, TransitionError> {
    if s.status.IsTerminal() then Err(Terminal(s.status, target))
    else if s.status.Blocked? then FromBlocked(s, target, reason)
    else if target.Blocked? then
      if reason.None? then Err(ReasonRequired(target)) else Ok(State(Blocked, reason, Some(s.status)))
    else if target.Cancelled? || target.Superseded? then
      if reason.None? then Err(ReasonRequired(target)) else Ok(State(target, reason, None))
    else if reason.Some? then Err(UnexpectedReason(target))
    else if s.status.Next() != Some(target) then Err(Invalid(s.status, target, s.status.Next()))
    else Ok(State(target, None, None))
  }

  function Withdraw(s: State): Result<State, TransitionError> {
    if !s.status.Scheduled? then Err(NotScheduled(s.status)) else Ok(State(Queued, None, None))
  }

  /** The combinations of stored fields that are taken back. */
  predicate Coherent(s: State) {
    match s.status
    case Blocked =>
      s.reason.Some? && s.blockedFrom.Some? && !s.blockedFrom.value.Blocked? && !s.blockedFrom.value.IsTerminal()
    case Cancelled | Superseded => s.reason.Some? && s.blockedFrom.None?
    case _ => s.reason.None? && s.blockedFrom.None?
  }

  function Restore(status: TaskStatus, reason: Option<StateReason>, blockedFrom: Option<TaskStatus>)
    : Result<State, TransitionError>
  {
    if Coherent(State(status, reason, blockedFrom)) then Ok(State(status, reason, blockedFrom))
    else Err(IncoherentPersistedState(status))
  }

  class TaskState {
    var status: TaskStatus
    var reason: Option<StateReason>
    var blockedFrom: Option<TaskStatus>

    ghost function Value(): State
      reads this
    {
      State(status, reason, blockedFrom)
    }

    constructor ()
      ensures Value() == PLANNED
    {
      status, reason, blockedFrom := Planned, None, None;
    }

    /** A refused request leaves every field as it was. */
    method Transition(target: TaskStatus, why: Option<StateReason>) returns (r: Outcome<TransitionError>)
      modifies this
      ensures var step := Advance(old(Value()), target, why);
              if step.Ok? then r.Pass? && Value() == step.value
              else r == Fail(step.error) && Value() == old(Value())
    {
      if status.IsTerminal() {
        return Fail(Terminal(status, target));
      }
      if status == Blocked {
        r := TransitionFromBlocked(target, why);
        return;
      }
      if target == Blocked {
        if why.None? {
          return Fail(ReasonRequired(target));
        }
        blockedFrom := Some(status);
        status := target;
        reason := why;
        return Pass;
      }
      if target == Cancelled || target == Superseded {
        if why.None? {
          return Fail(ReasonRequired(target));
        }
        status := target;
        reason := why;
        blockedFrom := None;
        return Pass;
      }
      if why.Some? {
        return Fail(UnexpectedReason(target));
      }
      if status.Next() != Some(target) {
        return Fail(Invalid(status, target, status.Next()));
      }
      status := target;
      reason := None;
      blockedFrom := None;
      return Pass;
    }

    method TransitionFromBlocked(target: TaskStatus, why: Option<StateReason>) returns (r: Outcome<TransitionError>)
      modifies this
      ensures var step := FromBlocked(old(Value()), target, why);
              if step.Ok? then r.Pass? && Value() == step.value
              else r == Fail(step.error) && Value() == old(Value())
    {
      if target == Cancelled || target == Superseded {
        if why.None? {
          return Fail(ReasonRequired(target));
        }
        status := target;
        reason := why;
        blockedFrom := None;
        return Pass;
      }
      if blockedFrom.None? {
        return Fail(CorruptBlockedState);
      }
      if target != blockedFrom.value {
        return Fail(InvalidResume(target, blockedFrom.value));
      }
      if why.Some? {
        return Fail(UnexpectedReason(target));
      }
      status := target;
      reason := None;
      blockedFrom := None;
      return Pass;
    }

    method WithdrawSchedule() returns (r: Outcome<TransitionError>)
      modifies this
      ensures var step := Withdraw(old(Value()));
              if step.Ok? then r.Pass? && Value() == step.value
              else r == Fail(step.error) && Value() == old(Value())
    {
      if status != Scheduled {
        return Fail(NotScheduled(status));
      }
      status := Queued;
      reason := None;
      blockedFrom := None;
      return Pass;
    }
  }

  /** Anything a caller may ask of a task's state. */
  datatype Request = Transition(target: TaskStatus, reason: Option<StateReason>) | WithdrawSchedule

  function Apply(s: State, request: Request): Result<State, TransitionError> {
    match request
    case Transition(target, reason) => Advance(s, target, reason)
    case WithdrawSchedule => Withdraw(s)
  }

  /** The state after a run of requests on a new task; refused ones change nothing. */
  function After(run: seq<Request>): State {
    if run == [] then PLANNED
    else
      var before := After(run[..|run| - 1]);
      var step := Apply(before, run[|run| - 1]);
      if step.Ok? then step.value else before
  }

  lemma AfterOneMore(run: seq<Request>, request: Request)
    ensures After(run + [request]) == var step := Apply(After(run), request); if step.Ok? then step.value else After(run)
  {
    assert (run + [request])[..|run|] == run;
  }

  lemma {:induction false} ReachedIsCoherent(run: seq<Request>)
    ensures Coherent(After(run))
  {
    if run != [] {
      ReachedIsCoherent(run[..|run| - 1]);
    }
  }

  function StatusAt(position: nat): TaskStatus
    requires position < 12
  {
    [Planned, Building, Captured, Validated, Queued, Scheduled, Reconciling, Verifying, CommitPrepared, PushPending,
     RemoteConfirmed, Published][position]
  }

  lemma {:induction false} WalkTo(position: nat) returns (run: seq<Request>)
    requires position < 12
    ensures After(run) == State(StatusAt(position), None, None)
    decreases position
  {
    if position == 0 {
      run := [];
    } else {
      var before := WalkTo(position - 1);
      run := before + [Transition(StatusAt(position), None)];
      AfterOneMore(before, Transition(StatusAt(position), None));
    }
  }

  lemma CoherentIsReached(s: State) returns (run: seq<Request>)
    requires Coherent(s)
    ensures After(run) == s
  {
    if s.status.Position().Some? {
      run := WalkTo(s.status.Position().value);
    } else {
      var from := if s.status.Blocked? then s.blockedFrom.value.Position().value else 0;
      var before := WalkTo(from);
      run := before + [Transition(s.status, s.reason)];
      AfterOneMore(before, Transition(s.status, s.reason));
    }
  }

  /** What storage gives back is accepted exactly when some run of requests produces it. */
  lemma RestoreAcceptsExactlyReachable(status: TaskStatus, reason: Option<StateReason>, blockedFrom: Option<TaskStatus>)
    ensures Restore(status, reason, blockedFrom).Ok?
            <==> exists run :: After(run) == State(status, reason, blockedFrom)
    ensures Restore(status, reason, blockedFrom).Ok?
            ==> Restore(status, reason, blockedFrom).value == State(status, reason, blockedFrom)
  {
    if Coherent(State(status, reason, blockedFrom)) {
      var run := CoherentIsReached(State(status, reason, blockedFrom));
    }
    if run :| After(run) == State(status, reason, blockedFrom) {
      ReachedIsCoherent(run);
    }
  }

  /** How far along the work is: a block keeps the place it interrupted; ended work has none. */
  function Progress(s: State): Option<nat> {
    if s.status.Blocked? && s.blockedFrom.Some? then s.blockedFrom.value.Position() else s.status.Position()
  }

  /** One request moves progress forward one place, holds it, ends the work, or withdraws a schedule. */
  lemma ProgressByOneRequest(s: State, request: Request)
    requires Coherent(s) && Apply(s, request).Ok?
    ensures var p, q := Progress(s), Progress(Apply(s, request).value);
            && p.Some?
            && (q.None? <==> request.Transition? && (request.target.Cancelled? || request.target.Superseded?))
            && (q.Some? ==> q.value == p.value || q.value == p.value + 1
                            || (q.value == 4 && p.value == 5 && request.WithdrawSchedule?))
            && (q.Some? && q.value == p.value <==> request.Transition? && (request.target.Blocked? || s.status.Blocked?)
                                                   && q.Some?)
  {
  }

  lemma ForwardIsOrdinary(s: State, request: Request)
    requires Coherent(s) && Apply(s, request).Ok?
    requires Progress(s).Some? && Progress(Apply(s, request).value) == Some(Progress(s).value + 1)
    ensures Progress(s).value < 11 && Apply(s, request).value.status == StatusAt(Progress(s).value + 1)
  {
  }

  /** Ended work stays as it is. */
  lemma {:induction false} EndedStaysEnded(run: seq<Request>, later: seq<Request>)
    requires After(run).status.IsTerminal()
    ensures After(run + later) == After(run)
    decreases |later|
  {
    if later == [] {
      assert run + later == run;
    } else {
      var n := |later| - 1;
      EndedStaysEnded(run, later[..n]);
      assert run + later == (run + later[..n]) + [later[n]];
      AfterOneMore(run + later[..n], later[n]);
    }
  }

  /** Blocking and resuming give back the state that was blocked, whatever it was and why. */
  lemma ResumeUndoesBlock(s: State, why: StateReason)
    requires Coherent(s) && !s.status.IsTerminal() && !s.status.Blocked?
    ensures Advance(s, Blocked, Some(why)).Ok?
    ensures Advance(Advance(s, Blocked, Some(why)).value, s.status, None) == Ok(s)
    ensures forall other, reason | other != s.status && !other.Cancelled? && !other.Superseded? ::
      Advance(Advance(s, Blocked, Some(why)).value, other, reason).Err?
  {
  }

  /** Published, cancelled and superseded work has ended. */
  predicate Ended(status: TaskStatus) {
    status == Published || status == Cancelled || status == Superseded
  }

  /** The kinds of change there are, and what each needs: only a resume and a step forward go without a reason. */
  ghost predicate Permitted(s: State, target: TaskStatus, reason: Option<StateReason>) {
    !Ended(s.status) &&
      match target
      case Cancelled | Superseded => reason.Some?
      case Blocked => reason.Some? && s.status != Blocked
      case _ =>
        && reason.None?
        && if s.status == Blocked then s.blockedFrom == Some(target)
           else s.status.Position().Some? && target.Position() == Some(s.status.Position().value + 1)
  }

  /** Where a permitted change leads: a block remembers where it fell, an end and a block keep their reason. */
  ghost predicate Leads(s: State, target: TaskStatus, reason: Option<StateReason>, next: State) {
    next.status == target && next.reason == reason && next.blockedFrom == if target == Blocked then Some(s.status) else None
  }

  /** The rule a refused change breaks: the first of these, in this order. */
  ghost predicate Forbids(s: State, target: TaskStatus, reason: Option<StateReason>, error: TransitionError) {
    var ends := target == Cancelled || target == Superseded;
    match error
    case Terminal(current, requested) => Ended(s.status) && current == s.status && requested == target
    case ReasonRequired(wanted) =>
      && !Ended(s.status) && wanted == target && reason.None?
      && (ends || (target == Blocked && s.status != Blocked))
    case CorruptBlockedState => s.status == Blocked && !ends && s.blockedFrom == None
    case InvalidResume(requested, resume) =>
      s.status == Blocked && !ends && requested == target && s.blockedFrom == Some(resume) && resume != target
    case UnexpectedReason(wanted) =>
      && !Ended(s.status) && !ends && wanted == target && reason.Some?
      && (if s.status == Blocked then s.blockedFrom == Some(target) else target != Blocked)
    case Invalid(current, requested, expected) =>
      && !Ended(s.status) && s.status != Blocked && !ends && target != Blocked && reason.None?
      && current == s.status && requested == target && expected != Some(target)
      && (match expected
          case Some(next) => s.status.Position().Some? && next.Position() == Some(s.status.Position().value + 1)
          case None => false)
    case NotScheduled(_) => false
    case IncoherentPersistedState(_) => false
  }

  /** A change is made exactly when it is permitted, and leads where it should. */
  lemma ChangesAreExact(s: State, target: TaskStatus, reason: Option<StateReason>)
    requires s.blockedFrom != Some(Blocked)
    ensures Advance(s, target, reason).Ok? <==> Permitted(s, target, reason)
    ensures Advance(s, target, reason).Ok? ==> Leads(s, target, reason, Advance(s, target, reason).value)
  {
    hide TaskStatus.Next, TaskStatus.Position;
    ForwardByOnePlace(s.status, target);
  }

  lemma ExpectedNext(s: State, target: TaskStatus, reason: Option<StateReason>, error: TransitionError)
    requires error.Invalid?
    ensures Advance(s, target, reason) == Err(error) <==> Forbids(s, target, reason, error)
  {
    hide TaskStatus.Next, TaskStatus.Position, FromBlocked;
    ForwardByOnePlace(s.status, target);
    if error.expected.Some? {
      ForwardByOnePlace(s.status, error.expected.value);
    }
    BlockedIsNeverInvalid(s, target, reason);
  }

  lemma BlockedIsNeverInvalid(s: State, target: TaskStatus, reason: Option<StateReason>)
    ensures FromBlocked(s, target, reason).Err? ==> !FromBlocked(s, target, reason).error.Invalid?
  {
  }

  lemma ReasonsOnlyWhereAsked(s: State, target: TaskStatus, reason: Option<StateReason>, error: TransitionError)
    requires error.UnexpectedReason?
    ensures Advance(s, target, reason) == Err(error) <==> Forbids(s, target, reason, error)
  {
    hide TaskStatus.Next, TaskStatus.Position;
  }

  lemma ReasonsWhereAsked(s: State, target: TaskStatus, reason: Option<StateReason>, error: TransitionError)
    requires error.ReasonRequired?
    ensures Advance(s, target, reason) == Err(error) <==> Forbids(s, target, reason, error)
  {
    hide TaskStatus.Next, TaskStatus.Position;
  }

  /** A refused change names the rule it breaks, with what was asked and what stands in its way. */
  lemma RefusalsNameTheRule(s: State, target: TaskStatus, reason: Option<StateReason>, error: TransitionError)
    ensures Advance(s, target, reason) == Err(error) <==> Forbids(s, target, reason, error)
  {
    hide TaskStatus.Next, TaskStatus.Position;
    if error.Invalid? {
      ExpectedNext(s, target, reason, error);
    } else if error.UnexpectedReason? {
      ReasonsOnlyWhereAsked(s, target, reason, error);
    } else if error.ReasonRequired? {
      ReasonsWhereAsked(s, target, reason, error);
    }
  }

  /** The next state is the one a place further along. */
  lemma ForwardByOnePlace(status: TaskStatus, target: TaskStatus)
    ensures status.Next() == Some(target) <==>
      status.Position().Some? && target.Position() == Some(status.Position().value + 1)
    ensures status.Next().None? <==> status in {Published, Blocked, Cancelled, Superseded}
    ensures status.Position().None? <==> status in {Blocked, Cancelled, Superseded}
  {
  }

  /** The remote may hold the work from the moment its push is pending. */
  lemma ReachFromPushPending(status: TaskStatus)
    ensures status.MayHaveReachedRemote() <==>
      status.Position().Some? && status.Position().value >= PushPending.Position().value
    ensures status.MayHaveReachedRemote() <==> status == PushPending || status == RemoteConfirmed || status == Published
  {
  }

  /** `moments[p]` is a moment of the run at which the task stood at position `p`, in rising order. */
  ghost predicate Visited(run: seq<Request>, moments: seq<nat>) {
    && |moments| <= 12
    && (forall p | 0 <= p < |moments| :: moments[p] <= |run| && After(run[..moments[p]]).status == StatusAt(p))
    && forall p, q | 0 <= p < q < |moments| :: moments[p] < moments[q]
  }

  lemma VisitedLonger(run: seq<Request>, request: Request, moments: seq<nat>)
    requires Visited(run, moments)
    ensures Visited(run + [request], moments)
  {
    forall p | 0 <= p < |moments| ensures After((run + [request])[..moments[p]]).status == StatusAt(p) {
      assert (run + [request])[..moments[p]] == run[..moments[p]];
    }
  }

  lemma NewIsPlanned()
    ensures After([]).status == StatusAt(0) && Progress(After([])) == Some(0)
  {
  }

  lemma {:induction false} ProgressWasVisited(run: seq<Request>) returns (moments: seq<nat>)
    ensures Visited(run, moments)
    ensures Progress(After(run)).Some? ==> |moments| == Progress(After(run)).value + 1
    decreases |run|
  {
    hide Apply, Coherent, Progress, After, StatusAt;
    if run == [] {
      moments := [0];
      NewIsPlanned();
    } else {
      var before, request := run[..|run| - 1], run[|run| - 1];
      assert run == before + [request];
      var earlier := ProgressWasVisited(before);
      ReachedIsCoherent(before);
      AfterOneMore(before, request);
      VisitedLonger(before, request, earlier);
      var s := After(before);
      moments := earlier;
      if Apply(s, request).Ok? {
        ProgressByOneRequest(s, request);
        var q := Progress(After(run));
        if q.Some? && q.value == Progress(s).value + 1 {
          ForwardIsOrdinary(s, request);
          moments := earlier + [|run|];
          assert run[..|run|] == run;
        } else if q.Some? && q.value < Progress(s).value {
          moments := earlier[..5];
        }
      }
    }
  }

  /** Published work stood at each of the eleven earlier states, in order, before it was published. */
  lemma PublishedVisitedEveryState(run: seq<Request>) returns (moments: seq<nat>)
    requires After(run).status.Published?
    ensures |moments| == 12 && Visited(run, moments)
  {
    moments := ProgressWasVisited(run);
  }
}
