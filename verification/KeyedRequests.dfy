/**
 * Carrying out commands whose caller names the intent with a key, so that a retry never acts twice.
 *
 * Any number of requests run at once, each on a thread of its own, each step of one interleaving with steps of
 * the others. A thread may be lost at any moment, and the process may stop. Only the rows survive that.
 */
module KeyedRequests {
  import opened Wrappers

  datatype Key = Key(text: string)

  datatype RequestId = RequestId(n: nat)

  /** Commands by what repeating them could do. */
  datatype Kind = Query | LocalChange | Publication {
    predicate ChangesState() {
      !Query?
    }

    predicate MayReachRemote() {
      Publication?
    }
  }

  datatype Request = Request(key: Option<Key>, kind: Kind, name: string, fingerprint: nat) {
    /** A key on a query is ignored. */
    function Claims(): Option<Key> {
      if kind.ChangesState() then key else None
    }
  }

  datatype Reply = Done(data: nat) | Failed(code: nat, retryable: bool)

  const INTERNAL := Failed(0, false)

  datatype Status = InProgress | Settled(outcome: Reply)

  datatype Row = Row(command: string, fingerprint: nat, status: Status)

  datatype Answer = Result(reply: Reply) | StillRunning | UsedDifferently(command: string)

  datatype Phase =
    | Claiming
    | Ready
    | Acting
    | Finishing(reply: Reply)
    | Answered(answer: Answer)
    | Gone
  {
    /** Between claiming its key and settling or releasing it. */
    predicate Owns() {
      Ready? || Acting? || Finishing?
    }
  }

  datatype Active = Active(request: Request, phase: Phase)

  /** `log` lists every command carried out, in order; `released` the failures that gave their key back. */
  datatype World = World(
    rows: map<Key, Row>, requests: map<RequestId, Active>, log: seq<RequestId>, released: map<RequestId, Reply>)
  {
    function At(id: RequestId, phase: Phase): World
      requires id in requests
    {
      this.(requests := requests[id := requests[id].(phase := phase)])
    }

    function Phase(id: RequestId): Phase {
      if id in requests then requests[id].phase else Gone
    }
  }

  datatype Step =
    | Arrive(id: RequestId, request: Request)
    | Claim(id: RequestId)
    | Start(id: RequestId)
    | Return(id: RequestId, reply: Reply)
    | Finish(id: RequestId)
    | FinishFails(id: RequestId)
    | Lose(id: RequestId)
    | Crash

  /** One transaction: takes a free key, or says what the key already stands for. */
  function ClaimKey(w: World, id: RequestId): World
    requires id in w.requests && w.requests[id].request.Claims().Some?
  {
    var request := w.requests[id].request;
    var key := request.Claims().value;
    if key !in w.rows then
      w.(rows := w.rows[key := Row(request.name, request.fingerprint, InProgress)]).At(id, Ready)
    else
      var row := w.rows[key];
      if row.fingerprint != request.fingerprint then w.At(id, Answered(UsedDifferently(row.command)))
      else if row.status.Settled? then w.At(id, Answered(Result(row.status.outcome)))
      else w.At(id, Answered(StillRunning))
  }

  /** The failure is worth retrying and provably never left this machine. */
  predicate GivesBack(request: Request, reply: Reply) {
    reply.Failed? && reply.retryable && !request.kind.MayReachRemote()
  }

  function FinishKey(w: World, id: RequestId, reply: Reply): World
    requires id in w.requests
  {
    var request := w.requests[id].request;
    if request.Claims().None? then w.At(id, Answered(Result(reply)))
    else
      var key := request.Claims().value;
      if GivesBack(request, reply) then
        var rows := if key in w.rows && w.rows[key].status.InProgress? then w.rows - {key} else w.rows;
        w.(rows := rows, released := w.released[id := reply]).At(id, Answered(Result(reply)))
      else if key in w.rows && w.rows[key].status.InProgress? then
        w.(rows := w.rows[key := w.rows[key].(status := Settled(reply))]).At(id, Answered(Result(reply)))
      else w.At(id, Answered(Result(INTERNAL)))
  }

  function Take(w: World, step: Step): World {
    match step
    case Arrive(id, request) =>
      if id in w.requests then w
      else w.(requests := w.requests[id := Active(request, if request.Claims().Some? then Claiming else Ready)])
    case Claim(id) => if w.Phase(id).Claiming? && w.requests[id].request.Claims().Some? then ClaimKey(w, id) else w
    case Start(id) => if w.Phase(id).Ready? then w.(log := w.log + [id]).At(id, Acting) else w
    case Return(id, reply) => if w.Phase(id).Acting? then w.At(id, Finishing(reply)) else w
    case Finish(id) => if w.Phase(id).Finishing? then FinishKey(w, id, w.Phase(id).reply) else w
    case FinishFails(id) =>
      if w.Phase(id).Finishing? && w.requests[id].request.Claims().Some? then w.At(id, Answered(Result(INTERNAL))) else w
    case Lose(id) => if id in w.requests && !w.requests[id].phase.Answered? then w.At(id, Gone) else w
    case Crash =>
      w.(requests := map id | id in w.requests ::
           if w.requests[id].phase.Answered? then w.requests[id] else w.requests[id].(phase := Gone))
  }

  function Runs(w: World, run: seq<Step>): World {
    if run == [] then w else Take(Runs(w, run[..|run| - 1]), run[|run| - 1])
  }

  const EMPTY := World(map[], map[], [], map[])

  /** This request owns this key. */
  predicate Holds(w: World, id: RequestId, key: Key) {
    id in w.requests && w.requests[id].request.Claims() == Some(key) && w.requests[id].phase.Owns()
  }

  ghost predicate HoldersSound(w: World) {
    && (forall id, key | Holds(w, id, key) ::
          key in w.rows && w.rows[key].status.InProgress? && w.rows[key].fingerprint == w.requests[id].request.fingerprint)
    && forall i, j, key | Holds(w, i, key) && Holds(w, j, key) :: i == j
  }

  /** The key this logged request was carried out under. */
  function KeyOf(w: World, id: RequestId): Option<Key> {
    if id in w.requests then w.requests[id].request.Claims() else None
  }

  /** Carried out, and its key not given back: the key still has its row, and is this request's if anyone's. */
  predicate Marked(w: World, id: RequestId) {
    id in w.requests && (KeyOf(w, id).Some? && id !in w.released ==>
      KeyOf(w, id).value in w.rows && w.rows[KeyOf(w, id).value].fingerprint == w.requests[id].request.fingerprint)
  }

  ghost predicate LogMarked(w: World) {
    && (forall k | 0 <= k < |w.log| :: Marked(w, w.log[k]) && !w.requests[w.log[k]].phase.Claiming?
                                       && !w.requests[w.log[k]].phase.Ready?)
    && forall a, b | 0 <= a < b < |w.log| :: w.log[a] != w.log[b]
  }

  /** Of two carried out under one key, the earlier gave it back. */
  ghost predicate LogReleased(w: World) {
    forall a, b | 0 <= a < b < |w.log| && KeyOf(w, w.log[a]).Some? && KeyOf(w, w.log[a]) == KeyOf(w, w.log[b]) ::
      w.log[a] in w.released
  }

  /** Whoever owns a key, everyone else carried out under it gave it back. */
  ghost predicate LogOwned(w: World) {
    forall a, id, key | 0 <= a < |w.log| && Holds(w, id, key) && KeyOf(w, w.log[a]) == Some(key) && w.log[a] != id ::
      w.log[a] in w.released
  }

  ghost predicate ReleasedSound(w: World) {
    forall id | id in w.released ::
      id in w.requests && w.requests[id].phase.Answered? && GivesBack(w.requests[id].request, w.released[id])
  }

  ghost predicate Inv(w: World) {
    HoldersSound(w) && LogMarked(w) && LogReleased(w) && LogOwned(w) && ReleasedSound(w)
  }

  /** A phase change that neither takes nor gives a key, nor undoes having been carried out. */
  lemma PhaseKeeps(w: World, id: RequestId, phase: Phase)
    requires Inv(w) && id in w.requests && !phase.Claiming? && !phase.Ready?
    requires phase.Owns() ==> w.requests[id].phase.Owns()
    requires id in w.released ==> phase.Answered?
    ensures Inv(w.At(id, phase))
  {
    var v := w.At(id, phase);
    assert forall i, key | Holds(v, i, key) :: Holds(w, i, key);
    assert forall i :: KeyOf(v, i) == KeyOf(w, i);
    forall k | 0 <= k < |v.log| ensures Marked(v, v.log[k]) {
      assert Marked(w, w.log[k]);
    }
  }

  lemma ArriveKeeps(w: World, id: RequestId, request: Request)
    requires Inv(w)
    ensures Inv(Take(w, Arrive(id, request)))
  {
    var v := Take(w, Arrive(id, request));
    if id !in w.requests {
      assert forall i, key | Holds(v, i, key) :: Holds(w, i, key);
      assert forall i | i != id :: KeyOf(v, i) == KeyOf(w, i);
      forall k | 0 <= k < |v.log| ensures Marked(v, v.log[k]) {
        assert Marked(w, w.log[k]);
      }
    }
  }

  lemma ClaimKeeps(w: World, id: RequestId)
    requires Inv(w) && w.Phase(id).Claiming? && w.requests[id].request.Claims().Some?
    ensures Inv(ClaimKey(w, id))
  {
    var request := w.requests[id].request;
    var key := request.Claims().value;
    var v := ClaimKey(w, id);
    if key !in w.rows {
      forall i, k | Holds(v, i, k) ensures Holds(w, i, k) || (i == id && k == key) {
      }
      assert forall i :: KeyOf(v, i) == KeyOf(w, i);
      forall k | 0 <= k < |v.log| ensures Marked(v, v.log[k]) && v.log[k] != id {
        assert Marked(w, w.log[k]);
      }
      forall a, i, k | 0 <= a < |v.log| && Holds(v, i, k) && KeyOf(v, v.log[a]) == Some(k) && v.log[a] != i
        ensures v.log[a] in v.released
      {
        assert Marked(w, w.log[a]);
      }
    } else {
      PhaseKeeps(w, id, v.requests[id].phase);
    }
  }

  lemma StartKeeps(w: World, id: RequestId)
    requires Inv(w) && w.Phase(id).Ready?
    ensures Inv(Take(w, Start(id)))
  {
    var v := Take(w, Start(id));
    StartFrame(w, v, id);
    StartLogs(w, v, id);
    assert HoldersSound(v) && ReleasedSound(v);
  }

  lemma StartFrame(w: World, v: World, id: RequestId)
    requires w.Phase(id).Ready? && v == Take(w, Start(id))
    ensures forall i, key :: Holds(v, i, key) <==> Holds(w, i, key)
    ensures forall i :: KeyOf(v, i) == KeyOf(w, i)
    ensures v.rows == w.rows && v.released == w.released && v.log == w.log + [id]
    ensures v.requests.Keys == w.requests.Keys && v.requests[id].phase.Acting?
    ensures forall i | i in w.requests :: v.requests[i].request == w.requests[i].request
                                          && (i != id ==> v.requests[i] == w.requests[i])
  {
  }

  lemma StartLogs(w: World, v: World, id: RequestId)
    requires Inv(w) && w.Phase(id).Ready? && v == Take(w, Start(id))
    ensures LogMarked(v) && LogReleased(v) && LogOwned(v)
  {
    hide Take, Holds, KeyOf;
    StartFrame(w, v, id);
    StartHolds(w, id);
    forall k | 0 <= k < |v.log| ensures Marked(v, v.log[k]) && (k < |w.log| ==> v.log[k] != id) {
      if k < |w.log| {
        assert Marked(w, w.log[k]);
      }
    }
    assert LogMarked(v);
    assert LogReleased(v);
    assert LogOwned(v);
  }

  /** A keyed request that is ready owns its key. */
  lemma StartHolds(w: World, id: RequestId)
    requires Inv(w) && w.Phase(id).Ready?
    ensures KeyOf(w, id).Some? ==> Holds(w, id, KeyOf(w, id).value) && Marked(w, id)
  {
    if KeyOf(w, id).Some? {
      assert Holds(w, id, KeyOf(w, id).value);
    }
  }

  lemma FinishKeeps(w: World, id: RequestId, reply: Reply)
    requires Inv(w) && w.Phase(id) == Finishing(reply)
    ensures Inv(FinishKey(w, id, reply))
  {
    var request := w.requests[id].request;
    var v := FinishKey(w, id, reply);
    if request.Claims().None? {
      PhaseKeeps(w, id, Answered(Result(reply)));
    } else {
      var key := request.Claims().value;
      assert Holds(w, id, key);
      assert forall i, k | Holds(v, i, k) :: Holds(w, i, k) && k != key;
      assert forall i :: KeyOf(v, i) == KeyOf(w, i);
      forall k | 0 <= k < |v.log| ensures Marked(v, v.log[k]) {
        assert Marked(w, w.log[k]);
      }
    }
  }

  lemma CrashKeeps(w: World)
    requires Inv(w)
    ensures Inv(Take(w, Crash))
  {
    var v := Take(w, Crash);
    assert forall i, key :: !Holds(v, i, key);
    assert forall i :: KeyOf(v, i) == KeyOf(w, i);
    forall k | 0 <= k < |v.log| ensures Marked(v, v.log[k]) {
      assert Marked(w, w.log[k]);
    }
  }

  lemma LossKeeps(w: World, id: RequestId)
    requires Inv(w) && id in w.requests && !w.requests[id].phase.Answered?
    ensures Inv(w.At(id, Gone))
  {
    assert id !in w.released;
    PhaseKeeps(w, id, Gone);
  }

  lemma StepKeeps(w: World, step: Step)
    requires Inv(w)
    ensures Inv(Take(w, step))
  {
    hide Inv, ClaimKey, FinishKey;
    NotReleasedWhileOwning(w);
    match step
    case Arrive(id, request) => ArriveKeeps(w, id, request);
    case Claim(id) =>
      if w.Phase(id).Claiming? && w.requests[id].request.Claims().Some? {
        ClaimKeeps(w, id);
      }
    case Start(id) =>
      if w.Phase(id).Ready? {
        StartKeeps(w, id);
      }
    case Return(id, reply) =>
      if w.Phase(id).Acting? {
        PhaseKeeps(w, id, Finishing(reply));
      }
    case Finish(id) =>
      if w.Phase(id).Finishing? {
        FinishKeeps(w, id, w.Phase(id).reply);
      }
    case FinishFails(id) =>
      if w.Phase(id).Finishing? && w.requests[id].request.Claims().Some? {
        PhaseKeeps(w, id, Answered(Result(INTERNAL)));
      }
    case Lose(id) =>
      if id in w.requests && !w.requests[id].phase.Answered? {
        LossKeeps(w, id);
      }
    case Crash => CrashKeeps(w);
  }

  lemma NotReleasedWhileOwning(w: World)
    requires Inv(w)
    ensures forall id | id in w.released :: !w.Phase(id).Owns()
  {
  }

  lemma {:induction false} RunKeeps(run: seq<Step>)
    ensures Inv(Runs(EMPTY, run))
    decreases |run|
  {
    hide Take;
    if run != [] {
      RunKeeps(run[..|run| - 1]);
      StepKeeps(Runs(EMPTY, run[..|run| - 1]), run[|run| - 1]);
    }
  }

  /** At any moment at most one request is between claiming a key and settling or releasing it. */
  lemma OneOwnerPerKey(run: seq<Step>, i: RequestId, j: RequestId, key: Key)
    requires Holds(Runs(EMPTY, run), i, key) && Holds(Runs(EMPTY, run), j, key)
    ensures i == j
    ensures key in Runs(EMPTY, run).rows && Runs(EMPTY, run).rows[key].status.InProgress?
  {
    RunKeeps(run);
  }

  /**
   * If a key was carried out twice, the first time failed in a way worth retrying that never left this
   * machine, and gave the key back.
   */
  lemma RepeatedOnlyAfterRelease(run: seq<Step>, a: nat, b: nat)
    requires a < b < |Runs(EMPTY, run).log|
    requires var w := Runs(EMPTY, run); KeyOf(w, w.log[a]).Some? && KeyOf(w, w.log[a]) == KeyOf(w, w.log[b])
    ensures var w := Runs(EMPTY, run);
            && w.log[a] in w.released && w.log[a] in w.requests
            && w.requests[w.log[a]].request.kind == LocalChange
            && w.released[w.log[a]].Failed? && w.released[w.log[a]].retryable
  {
    RunKeeps(run);
    assert Marked(Runs(EMPTY, run), Runs(EMPTY, run).log[a]);
  }

  /** A command that may reach the remote is carried out at most once per key, and nothing after it is. */
  lemma PublicationIsLastUnderItsKey(run: seq<Step>, a: nat, b: nat)
    requires a < |Runs(EMPTY, run).log| && b < |Runs(EMPTY, run).log|
    requires var w := Runs(EMPTY, run);
             && w.log[a] in w.requests && w.requests[w.log[a]].request.kind == Publication
             && KeyOf(w, w.log[a]).Some? && KeyOf(w, w.log[a]) == KeyOf(w, w.log[b])
    ensures b <= a
  {
    if a < b {
      RepeatedOnlyAfterRelease(run, a, b);
    }
  }

  predicate IsSettled(w: World, key: Key, fingerprint: nat, outcome: Reply) {
    key in w.rows && w.rows[key].fingerprint == fingerprint && w.rows[key].status == Settled(outcome)
  }

  lemma SettledStep(w: World, step: Step, key: Key, fingerprint: nat, outcome: Reply)
    requires IsSettled(w, key, fingerprint, outcome)
    ensures IsSettled(Take(w, step), key, fingerprint, outcome)
  {
  }

  /** A settled outcome never changes. */
  lemma {:induction false} SettledStays(w: World, run: seq<Step>, key: Key, fingerprint: nat, outcome: Reply)
    requires IsSettled(w, key, fingerprint, outcome)
    ensures IsSettled(Runs(w, run), key, fingerprint, outcome)
    decreases |run|
  {
    hide Take, IsSettled;
    if run != [] {
      SettledStays(w, run[..|run| - 1], key, fingerprint, outcome);
      SettledStep(Runs(w, run[..|run| - 1]), run[|run| - 1], key, fingerprint, outcome);
    }
  }

  /** However much later a same request comes, it receives that outcome and nothing is carried out for it. */
  lemma LaterRequestsReplay(
    w: World, run: seq<Step>, id: RequestId, key: Key, fingerprint: nat, outcome: Reply)
    requires IsSettled(w, key, fingerprint, outcome)
    requires Runs(w, run).Phase(id).Claiming? && Runs(w, run).requests[id].request.Claims() == Some(key)
    ensures var v, u := Runs(w, run), Take(Runs(w, run), Claim(id));
            && u.log == v.log && u.rows == v.rows
            && u.Phase(id) == if v.requests[id].request.fingerprint == fingerprint then Answered(Result(outcome))
                              else Answered(UsedDifferently(v.rows[key].command))
  {
    SettledStays(w, run, key, fingerprint, outcome);
  }

  /**
   * What the first request settles is what it answers. A failure of a change on this machine that is worth
   * retrying frees the key instead; everything else that is returned settles it.
   */
  lemma SettlingAnswers(w: World, id: RequestId, reply: Reply, key: Key)
    requires Inv(w) && w.Phase(id) == Finishing(reply)
    requires w.requests[id].request.key == Some(key) && w.requests[id].request.kind != Query
    ensures var v, local := Take(w, Finish(id)), w.requests[id].request.kind == LocalChange;
            && v.Phase(id) == Answered(Result(reply)) && v.log == w.log
            && (reply.Failed? && reply.retryable && local ==> v.rows == w.rows - {key} && v.released == w.released[id := reply])
            && (!(reply.Failed? && reply.retryable && local) ==>
                  && IsSettled(v, key, w.requests[id].request.fingerprint, reply)
                  && v.rows == w.rows[key := w.rows[key].(status := Settled(reply))] && v.released == w.released)
  {
    assert Holds(w, id, key);
  }

  /** The key's row says a request is running, and no request owns it. */
  ghost predicate Orphaned(w: World, key: Key) {
    key in w.rows && w.rows[key].status.InProgress? && forall id :: !Holds(w, id, key)
  }

  lemma FinishLeavesOthers(w: World, id: RequestId, reply: Reply, key: Key)
    requires id in w.requests && w.requests[id].request.Claims() != Some(key)
    ensures var v := FinishKey(w, id, reply); key in w.rows ==> key in v.rows && v.rows[key] == w.rows[key]
    ensures var v := FinishKey(w, id, reply); forall i | Holds(v, i, key) :: Holds(w, i, key)
  {
  }

  lemma ClaimLeavesOthers(w: World, id: RequestId, key: Key)
    requires id in w.requests && w.requests[id].request.Claims().Some? && key in w.rows
    ensures var v := ClaimKey(w, id);
            && key in v.rows && v.rows[key] == w.rows[key]
            && forall i | Holds(v, i, key) :: Holds(w, i, key)
  {
  }

  lemma OrphanedStep(w: World, step: Step, key: Key)
    requires Orphaned(w, key)
    ensures Orphaned(Take(w, step), key)
    ensures Take(w, step).rows[key] == w.rows[key]
  {
    hide ClaimKey, FinishKey;
    var v := Take(w, step);
    if !step.Crash? {
      var id := step.id;
      assert !Holds(w, id, key);
      if step.Claim? && w.Phase(id).Claiming? && w.requests[id].request.Claims().Some? {
        ClaimLeavesOthers(w, id, key);
      }
      if step.Finish? && w.Phase(id).Finishing? {
        FinishLeavesOthers(w, id, w.Phase(id).reply, key);
      }
    }
    forall i ensures !Holds(v, i, key) {
      assert !Holds(w, i, key);
    }
  }

  /**
   * A request for an orphaned key is turned away, whatever it asks: as still running if it is the same, and
   * otherwise as used by the command that holds the row.
   */
  lemma OrphanedTurnsAway(w: World, id: RequestId, key: Key)
    requires Orphaned(w, key) && w.Phase(id).Claiming? && w.requests[id].request.Claims() == Some(key)
    ensures var v := Take(w, Claim(id));
            && v == w.At(id, v.Phase(id))
            && v.Phase(id) == Answered(if w.rows[key].fingerprint == w.requests[id].request.fingerprint then StillRunning
                                       else UsedDifferently(w.rows[key].command))
  {
  }

  lemma {:induction false} OrphanedForever(w: World, run: seq<Step>, key: Key)
    requires Orphaned(w, key)
    ensures Orphaned(Runs(w, run), key) && Runs(w, run).rows[key] == w.rows[key]
    decreases |run|
  {
    hide Take, Orphaned;
    if run != [] {
      OrphanedForever(w, run[..|run| - 1], key);
      OrphanedHasRow(Runs(w, run[..|run| - 1]), key);
      OrphanedStep(Runs(w, run[..|run| - 1]), run[|run| - 1], key);
      OrphanedHasRow(Runs(w, run), key);
    } else {
      OrphanedHasRow(w, key);
    }
  }

  lemma OrphanedHasRow(w: World, key: Key)
    requires Orphaned(w, key)
    ensures key in w.rows
  {
  }

  /** This step makes the owner of the key let go without settling or releasing it. */
  ghost predicate LosesOwner(w: World, step: Step, key: Key) {
    exists id :: Holds(w, id, key) && LetsGo(w, step, id)
  }

  /** The process stops, the request's thread is lost, or recording its outcome fails. */
  predicate LetsGo(w: World, step: Step, id: RequestId) {
    step.Crash? || step == Lose(id) || (step == FinishFails(id) && w.Phase(id).Finishing?)
  }

  lemma LosingOrphans(w: World, step: Step, id: RequestId, key: Key)
    requires Inv(w) && Holds(w, id, key) && LetsGo(w, step, id)
    ensures Orphaned(Take(w, step), key)
  {
    var v := Take(w, step);
    forall i ensures !Holds(v, i, key) {
      assert Holds(v, i, key) ==> Holds(w, i, key);
    }
  }

  /** Any other step leaves the key with its owner, settles it or frees it. */
  lemma OwnerKeepsOrSettles(w: World, step: Step, id: RequestId, key: Key)
    requires Inv(w) && Holds(w, id, key) && !step.Crash? && step != Lose(id) && step != FinishFails(id)
    ensures Holds(Take(w, step), id, key) || key !in Take(w, step).rows || Take(w, step).rows[key].status.Settled?
  {
  }

  lemma RunningComesFromClaiming(w: World, step: Step, key: Key)
    requires Inv(w) && !(key in w.rows && w.rows[key].status.InProgress?)
    requires key in Take(w, step).rows && Take(w, step).rows[key].status.InProgress?
    ensures step.Claim? && Holds(Take(w, step), step.id, key)
  {
  }

  /**
   * A step orphans a key exactly when some request owned it and was lost, with its thread or the whole process,
   * or could not record its outcome.
   */
  lemma OrphanedExactly(w: World, step: Step, key: Key)
    requires Inv(w) && !Orphaned(w, key)
    ensures Orphaned(Take(w, step), key) <==> LosesOwner(w, step, key)
  {
    hide Inv, Take, Holds;
    if LosesOwner(w, step, key) {
      var id :| Holds(w, id, key) && LetsGo(w, step, id);
      LosingOrphans(w, step, id, key);
    } else if Orphaned(Take(w, step), key) {
      if key in w.rows && w.rows[key].status.InProgress? {
        var id :| Holds(w, id, key);
        FailsOnlyWhenFinishing(w, step, id, key);
        OwnerKeepsOrSettles(w, step, id, key);
      } else {
        RunningComesFromClaiming(w, step, key);
      }
      assert false;
    }
  }

  lemma FailsOnlyWhenFinishing(w: World, step: Step, id: RequestId, key: Key)
    requires Holds(w, id, key) && !LosesOwner(w, step, key)
    ensures !step.Crash? && step != Lose(id) && (step == FinishFails(id) ==> Holds(Take(w, step), id, key))
  {
  }

  /** So far some step made the owner of the key let go. */
  ghost predicate OnceLost(run: seq<Step>, key: Key) {
    exists k :: 0 <= k < |run| && LosesOwner(Runs(EMPTY, run[..k]), run[k], key)
  }

  /** Over a whole run: a key ends up orphaned exactly when its owner was once lost. */
  lemma {:induction false} OrphanedByLosing(run: seq<Step>, key: Key)
    ensures Orphaned(Runs(EMPTY, run), key) <==> OnceLost(run, key)
    decreases |run|
  {
    hide Inv, Take, Holds, Orphaned, LosesOwner;
    if run == [] {
      NothingOrphanedYet(key);
    } else {
      var before, last := run[..|run| - 1], run[|run| - 1];
      OrphanedByLosing(before, key);
      RunKeeps(before);
      assert forall k | 0 <= k < |before| :: run[..k] == before[..k];
      if Orphaned(Runs(EMPTY, before), key) {
        OrphanedStep(Runs(EMPTY, before), last, key);
        var k :| 0 <= k < |before| && LosesOwner(Runs(EMPTY, before[..k]), before[k], key);
        assert LosesOwner(Runs(EMPTY, run[..k]), run[k], key);
      } else {
        OrphanedExactly(Runs(EMPTY, before), last, key);
        assert forall k | 0 <= k < |before| :: !LosesOwner(Runs(EMPTY, before[..k]), before[k], key);
        assert OnceLost(run, key) <==> LosesOwner(Runs(EMPTY, before), last, key);
      }
    }
  }

  lemma NothingOrphanedYet(key: Key)
    ensures !Orphaned(EMPTY, key)
  {
  }

  /** Without any crash: a keyed command that fails to be settled leaves its key orphaned. */
  lemma FailedSettlementOrphans(id: RequestId, key: Key, kind: Kind, reply: Reply)
    requires kind.ChangesState()
    ensures var request := Request(Some(key), kind, "", 0);
            var run := [Arrive(id, request), Claim(id), Start(id), Return(id, reply), FinishFails(id)];
            Orphaned(Runs(EMPTY, run), key) && Runs(EMPTY, run).log == [id]
  {
    hide Runs;
    var request := Request(Some(key), kind, "", 0);
    var active, row := Active(request, Claiming), Row("", 0, InProgress);
    var w1 := EMPTY.(requests := map[id := active]);
    var w2 := w1.(rows := map[key := row]).At(id, Ready);
    var w3 := w2.(log := [id]).At(id, Acting);
    var w4 := w3.At(id, Finishing(reply));
    var w5 := w4.At(id, Answered(Result(INTERNAL)));
    NoStep(EMPTY);
    var run := Appended(EMPTY, [], Arrive(id, request), EMPTY, w1);
    run := Appended(EMPTY, run, Claim(id), w1, w2);
    run := Appended(EMPTY, run, Start(id), w2, w3);
    run := Appended(EMPTY, run, Return(id, reply), w3, w4);
    run := Appended(EMPTY, run, FinishFails(id), w4, w5);
    assert run == [Arrive(id, request), Claim(id), Start(id), Return(id, reply), FinishFails(id)];
    assert forall i :: !Holds(w5, i, key);
  }

  lemma NoStep(w: World)
    ensures Runs(w, []) == w
  {
  }

  lemma Appended(w: World, run: seq<Step>, step: Step, v: World, u: World) returns (longer: seq<Step>)
    requires Runs(w, run) == v && Take(v, step) == u
    ensures longer == run + [step] && Runs(w, longer) == u
  {
    longer := run + [step];
    assert longer[..|longer| - 1] == run;
  }
}
