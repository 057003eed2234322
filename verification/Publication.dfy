/**
 * Publishing captured work: a worker, its durable attempts, the tasks they carry, and a remote that other
 * writers also move.
 *
 * Every step is one durable write or one exchange with the remote. A crash may fall between any two,
 * a push that was sent may be applied at any later moment or never, and other writers may set or
 * delete any branch at any time.
 */
module Publications {
  import opened Wrappers
  import TaskGraphs
  import opened TaskLifecycle
  import opened RepositoryPolicies

  type TaskId = TaskGraphs.TaskId

  datatype AttemptId = AttemptId(bits: nat)

  datatype PackageName = PackageName(id: nat, revision: nat)

  /** Captured work: the tasks it delivers, in order, and the packages whose changes it takes out again. */
  datatype Package = Package(name: PackageName, tasks: seq<TaskId>, undoes: set<PackageName>)

  /**
   * A commit of another writer, with whatever that writer put into it, or a candidate on its parent.
   * Candidates of different attempts are different commits.
   */
  datatype Commit =
    | Foreign(n: nat, content: set<PackageName>)
    | Candidate(attempt: AttemptId, package: Package, parent: Commit)

  /** The packages whose changes a commit holds. */
  function Content(commit: Commit): set<PackageName> {
    match commit
    case Foreign(_, content) => content
    case Candidate(_, package, parent) => Content(parent) - package.undoes + {package.name}
  }

  /** Applying the package's changes here once more stages nothing. */
  predicate Contains(commit: Commit, package: Package) {
    package.name in Content(commit)
  }

  datatype Attempt = Attempt(
    package: Package, branch: Branch, state: State, candidate: Option<Commit>, parent: Option<Commit>,
    observed: Option<Commit>, retryNotBefore: Option<nat>, failures: nat)
  {
    /** The stage reached, seeing through a block to the state it paused at. */
    function Reached(): TaskStatus {
      if state.status.Blocked? && state.blockedFrom.Some? then state.blockedFrom.value else state.status
    }

    /** Owns its branch: from opening until it ends, or until it blocks before its push. */
    predicate Holds() {
      match state.status
      case Published | Cancelled | Superseded => false
      case Blocked => state.blockedFrom == Some(PushPending) || state.blockedFrom == Some(RemoteConfirmed)
      case _ => true
    }

    /** Its push may have reached the remote without a recorded exchange. */
    predicate AwaitsResolution() {
      state.status.PushPending? || (state.status.Blocked? && state.blockedFrom == Some(PushPending))
    }
  }

  /** A push on its way: applied only if the branch still is what the lease names. */
  datatype Push = Push(attempt: AttemptId, branch: Branch, lease: Option<Commit>, commit: Commit)

  /** The remote had this commit at the head of this branch at some moment. */
  datatype Holding = Holding(branch: Branch, commit: Commit)

  datatype Stage = Resume | Observe | Confirm | Publish | Settle | Mark(rest: seq<TaskId>)

  /** Where the worker stands, with what it remembers that is not durable. */
  datatype Point =
    | Opened
    | AskingHead
    | Fetching(from: Branch)
    | Applying(parent: Commit)
    | Checking(parent: Commit)
    | Preparing(parent: Commit)
    | Intending(parent: Commit)
    | Leasing(parent: Commit)
    | Pushing(parent: Commit, lease: Option<Commit>)
    | Sent(parent: Commit)
    | Resolving(parent: Commit)

  /** One activity at a time: every one of them holds the store. */
  datatype Activity =
    | Idle
    | Working(id: AttemptId, publication: Publication, at: Point)
    | AskingBranch(id: AttemptId)
    | FetchingBranch(id: AttemptId)
    | Confirming(id: AttemptId, stage: Stage, recovering: bool)
    | Failing(id: AttemptId, reason: StateReason)
    | Stopping(id: AttemptId, reason: StateReason, rest: seq<TaskId>)

  datatype World = World(
    policy: RepositoryPolicy,
    attempts: map<AttemptId, Attempt>,
    tasks: map<TaskId, State>,
    remote: map<Branch, Commit>,
    held: set<Holding>,
    wire: set<Push>,
    activity: Activity)
  {
    function Head(branch: Branch): Option<Commit> {
      if branch in remote then Some(remote[branch]) else None
    }

    function Entered(next: Activity): World {
      this.(activity := next)
    }

    predicate IsKnown(commit: Commit) {
      commit.Foreign? || exists h | h in held :: h.commit == commit
    }

    function WithHead(branch: Branch, commit: Commit): World {
      this.(remote := remote[branch := commit], held := held + {Holding(branch, commit)})
    }
  }

  function PublishedTo(w: World, package: Package, branch: Branch): bool {
    exists id | id in w.attempts ::
      w.attempts[id].package == package && w.attempts[id].branch == branch && w.attempts[id].state.status.Published?
  }

  function ReachedDevelopment(w: World, package: Package): bool {
    w.policy.development.Some? && PublishedTo(w, package, w.policy.development.value)
  }

  predicate BranchHeld(w: World, branch: Branch) {
    exists id | id in w.attempts :: w.attempts[id].branch == branch && w.attempts[id].Holds()
  }

  /** How an exchange with the outside turns out. */
  datatype Exchange = Succeeds | Fails(reason: StateReason) | Defers(until: nat)

  datatype Step =
    | Open(id: AttemptId, package: Package, maintenance: bool)
    | Go(exchange: Exchange)
    | StartRecovery(awaiting: AttemptId)
    | Crash
    | Deliver(push: Push)
    | Write(branch: Branch, commit: Commit)
    | Delete(branch: Branch)
    | SetPolicy(policy: RepositoryPolicy)
    | Command(task: TaskId, request: Request)

  const INTERNAL_ERROR := StateReason(Other("internal_error"), "step refused")
  const COMMIT_FAILED := StateReason(Other("commit_failed"), "nothing to commit")
  const MAX_FAILURES: nat := 255

  /** The store's guarded state change; refused requests change nothing. */
  function AdvanceAttempt(w: World, id: AttemptId, target: TaskStatus, reason: Option<StateReason>): Option<World>
    requires id in w.attempts
  {
    var attempt := w.attempts[id];
    var step := Advance(attempt.state, target, reason);
    if step.Err? then None
    else
      var retry := if target.PushPending? then attempt.retryNotBefore else None;
      Some(w.(attempts := w.attempts[id := attempt.(state := step.value, retryNotBefore := retry)]))
  }

  /** Advances the attempt and goes on, or fails it where the change is refused. */
  function AdvanceTo(w: World, id: AttemptId, target: TaskStatus, next: Activity, refused: Activity): World
    requires id in w.attempts
  {
    match AdvanceAttempt(w, id, target, None)
    case Some(advanced) => advanced.Entered(next)
    case None => w.Entered(refused)
  }

  /** Makes the candidate and the intent to push it durable, once, before the remote is contacted. */
  function RecordPushIntent(w: World, id: AttemptId, candidate: Commit, parent: Commit): Option<World>
    requires id in w.attempts
  {
    var attempt := w.attempts[id];
    if !attempt.state.status.CommitPrepared? then None
    else if attempt.candidate.Some? && attempt.candidate.value != candidate then None
    else if attempt.parent.Some? && attempt.parent.value != parent then None
    else Some(w.(attempts := w.attempts[id := attempt.(candidate := Some(candidate), parent := Some(parent))]))
  }

  function DeferRetry(w: World, id: AttemptId, until: nat): World
    requires id in w.attempts
  {
    var attempt := w.attempts[id];
    if !attempt.state.status.PushPending? || attempt.failures >= MAX_FAILURES then w.Entered(Failing(id, INTERNAL_ERROR))
    else
      w.(attempts := w.attempts[id := attempt.(retryNotBefore := Some(until), failures := attempt.failures + 1)])
       .Entered(Idle)
  }

  /** The next step of a worker that nothing has failed so far. */
  function WorkOn(w: World, id: AttemptId, to: Publication, at: Point): World
    requires id in w.attempts
  {
    var package, failing := w.attempts[id].package, Failing(id, INTERNAL_ERROR);
    match at
    case Opened => AdvanceTo(w, id, Reconciling, Working(id, to, AskingHead), failing)
    case AskingHead =>
      w.Entered(Working(id, to, Fetching(if to.createIfAbsent && to.branch !in w.remote then to.base else to.branch)))
    case Fetching(from) =>
      if from in w.remote then w.Entered(Working(id, to, Applying(w.remote[from]))) else w.Entered(failing)
    case Applying(parent) => AdvanceTo(w, id, Verifying, Working(id, to, Checking(parent)), failing)
    case Checking(parent) => AdvanceTo(w, id, CommitPrepared, Working(id, to, Preparing(parent)), failing)
    case Preparing(parent) =>
      if Contains(parent, package) then w.Entered(Failing(id, COMMIT_FAILED))
      else
      (match RecordPushIntent(w, id, Candidate(id, package, parent), parent)
       case Some(recorded) => recorded.Entered(Working(id, to, Intending(parent)))
       case None => w.Entered(failing))
    case Intending(parent) => AdvanceTo(w, id, PushPending, Working(id, to, Leasing(parent)), failing)
    case Leasing(parent) =>
      (match w.Head(to.branch)
       case Some(head) => w.Entered(if head == parent then Working(id, to, Pushing(parent, Some(parent))) else failing)
       case None => w.Entered(if to.createIfAbsent then Working(id, to, Pushing(parent, None)) else failing))
    case Pushing(parent, lease) =>
      w.(wire := w.wire + {Push(id, to.branch, lease, Candidate(id, package, parent))}).Entered(Working(id, to, Sent(parent)))
    case Sent(parent) =>
      if w.Head(to.branch) == Some(Candidate(id, package, parent)) then w.Entered(Confirming(id, Resume, false))
      else w.Entered(Working(id, to, Resolving(parent)))
    case Resolving(parent) =>
      if w.Head(to.branch) == Some(Candidate(id, package, parent)) then w.Entered(Confirming(id, Resume, false))
      else w.Entered(failing)
  }

  predicate MayDefer(at: Point) {
    at.Leasing? || at.Pushing? || at.Sent?
  }

  /** Asks the remote about a development branch before fetching it, since it may never have been created. */
  function AskBranch(w: World, id: AttemptId): World
    requires id in w.attempts
  {
    var attempt := w.attempts[id];
    if attempt.candidate.None? then w.Entered(Idle)
    else if attempt.branch != w.policy.target && attempt.branch !in w.remote then
      w.Entered(if attempt.retryNotBefore.Some? then Idle else Failing(id, INTERNAL_ERROR))
    else w.Entered(FetchingBranch(id))
  }

  /** Compares what the remote holds with the durable candidate and its parent. */
  function FetchBranch(w: World, id: AttemptId): World
    requires id in w.attempts
  {
    var attempt := w.attempts[id];
    if attempt.candidate.None? || attempt.branch !in w.remote then w.Entered(Idle)
    else if w.remote[attempt.branch] == attempt.candidate.value then w.Entered(Confirming(id, Resume, true))
    else if attempt.parent == Some(w.remote[attempt.branch]) && attempt.retryNotBefore.Some? then w.Entered(Idle)
    else w.Entered(Failing(id, INTERNAL_ERROR))
  }

  /** A push to the target completes the package's tasks; one to a development branch does not. */
  function SettleTasks(w: World, id: AttemptId, recovering: bool): World
    requires id in w.attempts
  {
    var attempt := w.attempts[id];
    w.Entered(if attempt.branch != w.policy.target then Idle else Confirming(id, Mark(attempt.package.tasks), recovering))
  }

  /**
   * Walks the first task one state further, or goes on to the next when it is published. A task that is
   * blocked or has ended otherwise is refused, and those behind it are not reached.
   */
  function MarkTask(w: World, id: AttemptId, rest: seq<TaskId>, recovering: bool, refused: Activity): World {
    if rest == [] then w.Entered(Idle)
    else if rest[0] !in w.tasks then w.Entered(refused)
    else
      var task := w.tasks[rest[0]];
      match task.status.IsAtOrPast(Published)
      case None => w.Entered(refused)
      case Some(true) => w.Entered(Confirming(id, Mark(rest[1..]), recovering))
      case Some(false) =>
        if task.status.Next().None? || Advance(task, task.status.Next().value, None).Err? then w.Entered(refused)
        else
          w.(tasks := w.tasks[rest[0] := Advance(task, task.status.Next().value, None).value])
           .Entered(Confirming(id, Mark(rest), recovering))
  }

  function ConfirmOn(w: World, id: AttemptId, stage: Stage, recovering: bool): World
    requires id in w.attempts
  {
    var attempt := w.attempts[id];
    var refused := if recovering then Idle else Failing(id, INTERNAL_ERROR);
    match stage
    case Resume =>
      if attempt.state.status.Blocked? then AdvanceTo(w, id, PushPending, Confirming(id, Observe, recovering), refused)
      else w.Entered(Confirming(id, Observe, recovering))
    case Observe =>
      w.(attempts := w.attempts[id := attempt.(observed := attempt.candidate)])
       .Entered(Confirming(id, Confirm, recovering))
    case Confirm => AdvanceTo(w, id, RemoteConfirmed, Confirming(id, Publish, recovering), refused)
    case Publish => AdvanceTo(w, id, Published, Confirming(id, Settle, recovering), refused)
    case Settle => SettleTasks(w, id, recovering)
    case Mark(rest) => MarkTask(w, id, rest, recovering, refused)
  }

  /**
   * Counts the failure and blocks the attempt with its reason, then turns to its tasks. One that has ended, is
   * blocked or has failed too often keeps what it has.
   */
  function FailOn(w: World, id: AttemptId, reason: StateReason): World
    requires id in w.attempts
  {
    var attempt := w.attempts[id];
    if attempt.state.status.IsTerminal() || attempt.state.status.Blocked? then w.Entered(Idle)
    else if attempt.failures >= MAX_FAILURES then w.Entered(Idle)
    else
      var counted := w.(attempts := w.attempts[id := attempt.(failures := attempt.failures + 1)]);
      match AdvanceAttempt(counted, id, Blocked, Some(reason))
      case Some(blocked) => blocked.Entered(Stopping(id, reason, attempt.package.tasks))
      case None => counted.Entered(Idle)
  }

  /** Blocks the first task, unless it is missing, blocked or ended. */
  function StopTask(w: World, id: AttemptId, reason: StateReason, rest: seq<TaskId>): World {
    if rest == [] then w.Entered(Idle)
    else
      var next := Stopping(id, reason, rest[1..]);
      if rest[0] !in w.tasks || Advance(w.tasks[rest[0]], Blocked, Some(reason)).Err? then w.Entered(next)
      else w.(tasks := w.tasks[rest[0] := Advance(w.tasks[rest[0]], Blocked, Some(reason)).value]).Entered(next)
  }

  /** The current activity goes on; whatever it does next may fail instead. */
  function Proceed(w: World, exchange: Exchange): World {
    match w.activity
    case Idle => w
    case Working(id, to, at) =>
      if id !in w.attempts then w.Entered(Idle)
      else if exchange.Succeeds? then WorkOn(w, id, to, at)
      else if exchange.Fails? then w.Entered(Failing(id, exchange.reason))
      else if MayDefer(at) then DeferRetry(w, id, exchange.until)
      else w
    case AskingBranch(id) => if id !in w.attempts || !exchange.Succeeds? then w.Entered(Idle) else AskBranch(w, id)
    case FetchingBranch(id) => if id !in w.attempts || !exchange.Succeeds? then w.Entered(Idle) else FetchBranch(w, id)
    case Confirming(id, stage, recovering) =>
      if id !in w.attempts then w.Entered(Idle)
      else if exchange.Succeeds? then ConfirmOn(w, id, stage, recovering)
      else if exchange.Fails? && !recovering then w.Entered(Failing(id, exchange.reason))
      else w.Entered(Idle)
    case Failing(id, reason) =>
      if id !in w.attempts || !exchange.Succeeds? then w.Entered(Idle) else FailOn(w, id, reason)
    case Stopping(id, reason, rest) =>
      if !exchange.Succeeds? then w.Entered(Idle) else StopTask(w, id, reason, rest)
  }

  /** Opens an attempt on the branch the policy chooses, unless another attempt holds it. */
  function OpenAttempt(w: World, id: AttemptId, package: Package, maintenance: bool): World {
    var to := Choose(w.policy, ReachedDevelopment(w, package));
    if !w.activity.Idle? || id in w.attempts then w
    else if maintenance && Withheld(w.policy, ReachedDevelopment(w, package)) then w
    else if BranchHeld(w, to.branch) then w
    else
      var attempt := Attempt(package, to.branch, State(Scheduled, None, None), None, None, None, None, 0);
      w.(attempts := w.attempts[id := attempt]).Entered(Working(id, to, Opened))
  }

  /** The remote decides a push: all of it, if the branch is still what the lease names, or nothing. */
  function DeliverPush(w: World, push: Push): World {
    if push !in w.wire then w
    else
      var decided := w.(wire := w.wire - {push});
      if w.Head(push.branch) == push.lease then decided.WithHead(push.branch, push.commit) else decided
  }

  /** What anybody asks of a task: nothing resumes one that is blocked. */
  predicate MayAsk(s: State, request: Request) {
    s.status.Blocked? ==> request.Transition? && (request.target.Cancelled? || request.target.Superseded?)
  }

  /** Another command changes a task, between activities: grouping, scheduling, cancelling, a merge seen elsewhere. */
  function ChangeTask(w: World, task: TaskId, request: Request): World {
    if !w.activity.Idle? || task !in w.tasks || !MayAsk(w.tasks[task], request) then w
    else
      match Apply(w.tasks[task], request)
      case Ok(changed) => w.(tasks := w.tasks[task := changed])
      case Err(_) => w
  }

  function Take(w: World, step: Step): World {
    match step
    case Open(id, package, maintenance) => OpenAttempt(w, id, package, maintenance)
    case Go(exchange) => Proceed(w, exchange)
    case StartRecovery(id) =>
      if w.activity.Idle? && id in w.attempts && w.attempts[id].AwaitsResolution() then w.Entered(AskingBranch(id))
      else w
    case Crash => w.Entered(Idle)
    case Deliver(push) => DeliverPush(w, push)
    case Write(branch, commit) => if w.IsKnown(commit) then w.WithHead(branch, commit) else w
    case Delete(branch) => w.(remote := w.remote - {branch})
    case SetPolicy(policy) => if policy.Sound() then w.(policy := policy) else w
    case Command(task, request) => ChangeTask(w, task, request)
  }

  /** Nothing published yet; the remote holds only what others put there. */
  predicate Initial(w: World) {
    && w.policy.Sound() && w.attempts == map[] && w.wire == {} && w.activity.Idle?
    && (forall task | task in w.tasks :: Coherent(w.tasks[task]) && !w.tasks[task].status.Published?)
    && (forall b | b in w.remote :: Holding(b, w.remote[b]) in w.held)
    && (forall h | h in w.held :: h.commit.Foreign?)
  }

  function Runs(w: World, run: seq<Step>): World {
    if run == [] then w else Take(Runs(w, run[..|run| - 1]), run[|run| - 1])
  }
}
