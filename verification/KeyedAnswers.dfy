/** Whose answer a request is given: its own, or that of the request it repeats. */
module KeyedAnswers {
  import opened Wrappers
  import opened KeyedRequests

  // -------------------------------------------------------- without a key

  /** A question, or a command that names no intent. */
  predicate NamesNoIntent(request: Request) {
    request.kind == Query || request.key == None
  }

  /** Finishing such a request answers what was returned, and touches nothing else. */
  lemma UnkeyedAnswersItsReply(w: World, id: RequestId, reply: Reply)
    requires w.Phase(id) == Finishing(reply) && NamesNoIntent(w.requests[id].request)
    ensures var v := Take(w, Finish(id));
            && v.requests == w.requests[id := Active(w.requests[id].request, Answered(Result(reply)))]
            && v.rows == w.rows && v.released == w.released && v.log == w.log
  {
  }

  /** From arrival to answer it needs no key, whatever the keys stand for: it is carried out once and answered its reply. */
  lemma UnkeyedRunsThrough(w: World, id: RequestId, request: Request, reply: Reply)
    requires id !in w.requests && NamesNoIntent(request)
    ensures var run := [Arrive(id, request), Start(id), Return(id, reply), Finish(id)];
            Runs(w, run) ==
              w.(requests := w.requests[id := Active(request, Answered(Result(reply)))], log := w.log + [id])
  {
    hide Runs;
    var w1 := w.(requests := w.requests[id := Active(request, Ready)]);
    var w2 := w1.(log := w.log + [id]).At(id, Acting);
    var w3 := w2.At(id, Finishing(reply));
    var w4 := w3.At(id, Answered(Result(reply)));
    NoStep(w);
    var run := Appended(w, [], Arrive(id, request), w, w1);
    run := Appended(w, run, Start(id), w1, w2);
    run := Appended(w, run, Return(id, reply), w2, w3);
    run := Appended(w, run, Finish(id), w3, w4);
    assert run == [Arrive(id, request), Start(id), Return(id, reply), Finish(id)];
  }

  /** The request was carried out and this is what it returned. */
  ghost predicate ReturnedIn(run: seq<Step>, id: RequestId, reply: Reply) {
    exists k | 0 <= k < |run| :: run[k] == Return(id, reply) && Runs(EMPTY, run[..k]).Phase(id).Acting?
  }

  lemma ReturnedLonger(run: seq<Step>, step: Step, id: RequestId, reply: Reply)
    ensures ReturnedIn(run + [step], id, reply) <==>
      ReturnedIn(run, id, reply) || (step == Return(id, reply) && Runs(EMPTY, run).Phase(id).Acting?)
  {
    hide Runs;
    var all := run + [step];
    assert all[..|run|] == run && all[|run|] == step;
    assert forall k | 0 <= k < |run| :: all[..k] == run[..k] && all[k] == run[k];
    if k :| 0 <= k < |run| && run[k] == Return(id, reply) && Runs(EMPTY, run[..k]).Phase(id).Acting? {
      assert all[k] == Return(id, reply) && Runs(EMPTY, all[..k]).Phase(id).Acting?;
    }
    if step == Return(id, reply) && Runs(EMPTY, run).Phase(id).Acting? {
      assert all[|run|] == Return(id, reply) && Runs(EMPTY, all[..|run|]).Phase(id).Acting?;
    }
  }

  lemma OneMore(run: seq<Step>, step: Step)
    ensures Runs(EMPTY, run + [step]) == Take(Runs(EMPTY, run), step)
  {
    assert (run + [step])[..|run|] == run;
  }

  // -------------------------------------------------- whose answer it is

  /** Another request with the same key, and what it has to do with this one. */
  ghost predicate SameIntent(w: World, id: RequestId, other: RequestId) {
    && id in w.requests && other in w.requests && other != id
    && w.requests[id].request.Claims().Some?
    && w.requests[other].request.Claims() == w.requests[id].request.Claims()
    && w.requests[other].request.fingerprint == w.requests[id].request.fingerprint
  }

  ghost predicate OtherIntent(w: World, id: RequestId, other: RequestId, command: string) {
    && id in w.requests && other in w.requests && other != id
    && w.requests[id].request.Claims().Some?
    && w.requests[other].request.Claims() == w.requests[id].request.Claims()
    && w.requests[other].request.fingerprint != w.requests[id].request.fingerprint
    && w.requests[other].request.name == command
  }

  /** Where an answer comes from. */
  ghost predicate Sourced(w: World, run: seq<Step>, id: RequestId, answer: Answer) {
    match answer
    case StillRunning => exists other :: SameIntent(w, id, other)
    case UsedDifferently(command) => exists other :: OtherIntent(w, id, other, command)
    case Result(reply) =>
      || ReturnedIn(run, id, reply)
      || (reply == INTERNAL && FinishFails(id) in run && id in w.requests && w.requests[id].request.Claims().Some?)
      || exists other :: SameIntent(w, id, other) && ReturnedIn(run, other, reply)
  }

  /** The request that a row was written for, and whose outcome it holds once it is settled. */
  ghost predicate WrittenFor(w: World, run: seq<Step>, key: Key, row: Row, author: RequestId) {
    && author in w.requests && w.requests[author].request.Claims() == Some(key) && !w.requests[author].phase.Claiming?
    && w.requests[author].request.name == row.command && w.requests[author].request.fingerprint == row.fingerprint
    && (row.status.Settled? ==> ReturnedIn(run, author, row.status.outcome))
  }

  ghost predicate RowsWritten(w: World, run: seq<Step>) {
    forall key | key in w.rows :: exists author :: WrittenFor(w, run, key, w.rows[key], author)
  }

  /** Whoever owns a key owns the row that was written for it. */
  ghost predicate OwnersWrite(w: World) {
    forall id, key | Holds(w, id, key) && key in w.rows :: w.rows[key].command == w.requests[id].request.name
  }

  ghost predicate RepliesReturned(w: World, run: seq<Step>) {
    forall id | id in w.requests && w.requests[id].phase.Finishing? :: ReturnedIn(run, id, w.requests[id].phase.reply)
  }

  ghost predicate AnswersSourced(w: World, run: seq<Step>) {
    forall id | id in w.requests && w.requests[id].phase.Answered? :: Sourced(w, run, id, w.requests[id].phase.answer)
  }

  ghost predicate Accounted(w: World, run: seq<Step>) {
    RowsWritten(w, run) && OwnersWrite(w) && RepliesReturned(w, run) && AnswersSourced(w, run)
  }

  /** Requests stay what they are, and no more is claimed. */
  ghost predicate Onwards(w: World, v: World) {
    forall id | id in w.requests ::
      id in v.requests && v.requests[id].request == w.requests[id].request
      && (!w.requests[id].phase.Claiming? ==> !v.requests[id].phase.Claiming?)
  }

  lemma TakeGoesOnwards(w: World, step: Step)
    ensures Onwards(w, Take(w, step))
  {
  }

  lemma SourceStays(w: World, v: World, run: seq<Step>, step: Step, id: RequestId, answer: Answer)
    requires Sourced(w, run, id, answer) && Onwards(w, v) && id in w.requests
    ensures Sourced(v, run + [step], id, answer)
  {
    hide ReturnedIn;
    match answer {
      case StillRunning =>
        var other :| SameIntent(w, id, other);
        assert SameIntent(v, id, other);
      case UsedDifferently(command) =>
        var other :| OtherIntent(w, id, other, command);
        assert OtherIntent(v, id, other, command);
      case Result(reply) =>
        ReturnedLonger(run, step, id, reply);
        if other :| SameIntent(w, id, other) && ReturnedIn(run, other, reply) {
          ReturnedLonger(run, step, other, reply);
          assert SameIntent(v, id, other);
        }
    }
  }

  lemma RowStaysWritten(w: World, v: World, run: seq<Step>, step: Step, key: Key, row: Row)
    requires Onwards(w, v) && exists author :: WrittenFor(w, run, key, row, author)
    ensures exists author :: WrittenFor(v, run + [step], key, row, author)
  {
    hide ReturnedIn;
    var author :| WrittenFor(w, run, key, row, author);
    if row.status.Settled? {
      ReturnedLonger(run, step, author, row.status.outcome);
    }
    assert WrittenFor(v, run + [step], key, row, author);
  }

  /** A step that writes no row, answers nobody and returns nothing keeps the account. */
  lemma AccountStays(w: World, v: World, run: seq<Step>, step: Step)
    requires Accounted(w, run) && Onwards(w, v)
    requires forall key | key in v.rows :: key in w.rows && v.rows[key] == w.rows[key]
    requires forall id, key | Holds(v, id, key) :: Holds(w, id, key)
    requires forall id | id in v.requests && v.requests[id].phase.Finishing? ::
               ReturnedIn(run + [step], id, v.requests[id].phase.reply)
    requires forall id | id in v.requests && v.requests[id].phase.Answered? ::
               (id in w.requests && v.requests[id] == w.requests[id])
               || Sourced(v, run + [step], id, v.requests[id].phase.answer)
    ensures Accounted(v, run + [step])
  {
    hide ReturnedIn, Holds, WrittenFor, Sourced;
    forall key | key in v.rows ensures exists author :: WrittenFor(v, run + [step], key, v.rows[key], author) {
      RowStaysWritten(w, v, run, step, key, v.rows[key]);
    }
    forall id | id in v.requests && v.requests[id].phase.Answered?
      ensures Sourced(v, run + [step], id, v.requests[id].phase.answer)
    {
      if id in w.requests && v.requests[id] == w.requests[id] {
        SourceStays(w, v, run, step, id, v.requests[id].phase.answer);
      }
    }
    OwnersStillWrite(w, v);
  }

  lemma OwnersStillWrite(w: World, v: World)
    requires OwnersWrite(w) && Onwards(w, v)
    requires forall key | key in v.rows :: key in w.rows && v.rows[key] == w.rows[key]
    requires forall id, key | Holds(v, id, key) :: Holds(w, id, key)
    ensures OwnersWrite(v)
  {
  }

  lemma StillReturned(w: World, run: seq<Step>, step: Step)
    requires RepliesReturned(w, run)
    ensures forall id | id in w.requests && w.requests[id].phase.Finishing? ::
      ReturnedIn(run + [step], id, w.requests[id].phase.reply)
  {
    hide ReturnedIn;
    forall id | id in w.requests && w.requests[id].phase.Finishing?
      ensures ReturnedIn(run + [step], id, w.requests[id].phase.reply)
    {
      ReturnedLonger(run, step, id, w.requests[id].phase.reply);
    }
  }

  // ------------------------------------------------------- step by step

  lemma ClaimAccounted(w: World, run: seq<Step>, id: RequestId)
    requires Inv(w) && Accounted(w, run)
    requires w.Phase(id).Claiming? && w.requests[id].request.Claims().Some?
    ensures Accounted(ClaimKey(w, id), run + [Claim(id)])
  {
    hide ReturnedIn, Inv;
    var step, v := Claim(id), ClaimKey(w, id);
    var key := w.requests[id].request.Claims().value;
    TakeGoesOnwards(w, step);
    StillReturned(w, run, step);
    if key in w.rows {
      ClaimedAnswerIsSourced(w, run, id, key);
      OthersHoldAlike(w, v, id);
      AccountStays(w, v, run, step);
    } else {
      FreeHasNoOwner(w, key);
      FreshRowIsWritten(w, run, id, key);
    }
  }

  lemma FreeHasNoOwner(w: World, key: Key)
    requires Inv(w) && key !in w.rows
    ensures forall id :: !Holds(w, id, key)
  {
  }

  lemma OthersHoldAlike(w: World, v: World, id: RequestId)
    requires id in w.requests && v == w.At(id, v.Phase(id)) && !v.Phase(id).Owns()
    ensures forall other, key | Holds(v, other, key) :: Holds(w, other, key)
  {
  }

  lemma ClaimedAnswerIsSourced(w: World, run: seq<Step>, id: RequestId, key: Key)
    requires Accounted(w, run) && w.Phase(id).Claiming? && w.requests[id].request.Claims() == Some(key) && key in w.rows
    ensures var v := ClaimKey(w, id);
            && v == w.At(id, v.Phase(id)) && v.Phase(id).Answered?
            && Sourced(v, run + [Claim(id)], id, v.Phase(id).answer)
  {
    hide ReturnedIn;
    var v, row := ClaimKey(w, id), w.rows[key];
    var author :| WrittenFor(w, run, key, row, author);
    if row.fingerprint != w.requests[id].request.fingerprint {
      assert OtherIntent(v, id, author, row.command);
    } else {
      assert SameIntent(v, id, author);
      if row.status.Settled? {
        ReturnedLonger(run, Claim(id), author, row.status.outcome);
      }
    }
  }

  lemma FreshRowIsWritten(w: World, run: seq<Step>, id: RequestId, key: Key)
    requires Accounted(w, run) && w.Phase(id).Claiming? && w.requests[id].request.Claims() == Some(key) && key !in w.rows
    requires forall other :: !Holds(w, other, key)
    requires forall other | other in w.requests && w.requests[other].phase.Finishing? ::
               ReturnedIn(run + [Claim(id)], other, w.requests[other].phase.reply)
    ensures Accounted(ClaimKey(w, id), run + [Claim(id)])
  {
    hide ReturnedIn;
    var step, v := Claim(id), ClaimKey(w, id);
    TakeGoesOnwards(w, step);
    assert Onwards(w, v);
    forall k | k in v.rows ensures exists author :: WrittenFor(v, run + [step], k, v.rows[k], author) {
      if k == key {
        assert WrittenFor(v, run + [step], key, v.rows[key], id);
      } else {
        RowStaysWritten(w, v, run, step, k, w.rows[k]);
      }
    }
    forall other, k | Holds(v, other, k) && k in v.rows
      ensures v.rows[k].command == v.requests[other].request.name
    {
      assert other != id ==> Holds(w, other, k);
    }
    forall other | other in v.requests && v.requests[other].phase.Answered?
      ensures Sourced(v, run + [step], other, v.requests[other].phase.answer)
    {
      SourceStays(w, v, run, step, other, w.requests[other].phase.answer);
    }
  }

  lemma FinishAccounted(w: World, run: seq<Step>, id: RequestId, reply: Reply)
    requires Inv(w) && Accounted(w, run) && w.Phase(id) == Finishing(reply)
    ensures Accounted(FinishKey(w, id, reply), run + [Finish(id)])
  {
    hide ReturnedIn, Inv, WrittenFor, OwnersWrite, Sourced, FinishKey;
    var step, v := Finish(id), FinishKey(w, id, reply);
    TakeGoesOnwards(w, step);
    StillReturned(w, run, step);
    FinishEffect(w, id, reply);
    assert Sourced(v, run + [step], id, Result(reply)) by { OwnReply(v, run + [step], id, reply); }
    forall key | key in v.rows ensures exists author :: WrittenFor(v, run + [step], key, v.rows[key], author) {
      if key in w.rows && v.rows[key] == w.rows[key] {
        RowStaysWritten(w, v, run, step, key, w.rows[key]);
      } else {
        SettledForItself(w, v, run + [step], id, key, reply);
      }
    }
    forall other | other in v.requests && v.requests[other].phase.Answered? && other != id
      ensures Sourced(v, run + [step], other, v.requests[other].phase.answer)
    {
      SourceStays(w, v, run, step, other, w.requests[other].phase.answer);
    }
    OwnersWriteAfterwards(w, id, reply);
  }

  lemma OwnReply(w: World, run: seq<Step>, id: RequestId, reply: Reply)
    requires ReturnedIn(run, id, reply)
    ensures Sourced(w, run, id, Result(reply))
  {
    hide ReturnedIn;
  }

  /** What finishing changes: this request's answer, and at most the row of its own key. */
  lemma FinishEffect(w: World, id: RequestId, reply: Reply)
    requires Inv(w) && w.Phase(id) == Finishing(reply)
    ensures var v, key := FinishKey(w, id, reply), w.requests[id].request.Claims();
            && v.requests == w.requests[id := Active(w.requests[id].request, Answered(Result(reply)))]
            && forall k | k in v.rows ::
                 k in w.rows
                 && (v.rows[k] == w.rows[k] || (key == Some(k) && v.rows[k] == w.rows[k].(status := Settled(reply))
                                                && w.rows[k].fingerprint == w.requests[id].request.fingerprint))
  {
    if w.requests[id].request.Claims().Some? {
      assert Holds(w, id, w.requests[id].request.Claims().value);
    }
  }

  lemma SettledForItself(w: World, v: World, run: seq<Step>, id: RequestId, key: Key, reply: Reply)
    requires OwnersWrite(w) && w.Phase(id) == Finishing(reply) && w.requests[id].request.Claims() == Some(key)
    requires id in v.requests && v.requests[id].request == w.requests[id].request && !v.requests[id].phase.Claiming?
    requires key in w.rows && key in v.rows && v.rows[key] == w.rows[key].(status := Settled(reply))
    requires w.rows[key].fingerprint == w.requests[id].request.fingerprint && ReturnedIn(run, id, reply)
    ensures WrittenFor(v, run, key, v.rows[key], id)
  {
    hide ReturnedIn;
    assert Holds(w, id, key);
  }

  lemma OwnersWriteAfterwards(w: World, id: RequestId, reply: Reply)
    requires Inv(w) && OwnersWrite(w) && w.Phase(id) == Finishing(reply)
    ensures OwnersWrite(FinishKey(w, id, reply))
  {
    FinishEffect(w, id, reply);
    hide FinishKey, Inv;
    var v := FinishKey(w, id, reply);
    forall other, k | Holds(v, other, k) && k in v.rows ensures v.rows[k].command == v.requests[other].request.name {
      assert Holds(w, other, k);
    }
  }

  /** A request changes phase, taking no key; if it returns or is answered, that is accounted for. */
  lemma PhaseAccounted(w: World, run: seq<Step>, step: Step, id: RequestId, phase: Phase)
    requires Accounted(w, run) && id in w.requests && !phase.Claiming?
    requires phase.Owns() ==> w.requests[id].phase.Owns()
    requires phase.Finishing? ==> ReturnedIn(run + [step], id, phase.reply)
    requires phase.Answered? ==> Sourced(w.At(id, phase), run + [step], id, phase.answer)
    ensures Accounted(w.At(id, phase), run + [step])
  {
    StillReturned(w, run, step);
    PhaseTakesNoKey(w, id, phase);
    assert Onwards(w, w.At(id, phase));
    hide ReturnedIn, Sourced, Accounted, Onwards, Holds;
    AccountStays(w, w.At(id, phase), run, step);
  }

  lemma PhaseTakesNoKey(w: World, id: RequestId, phase: Phase)
    requires id in w.requests && (phase.Owns() ==> w.requests[id].phase.Owns())
    ensures forall other, key | Holds(w.At(id, phase), other, key) :: Holds(w, other, key)
  {
  }

  lemma ArriveAccounted(w: World, run: seq<Step>, id: RequestId, request: Request)
    requires Accounted(w, run) && id !in w.requests
    ensures Accounted(Take(w, Arrive(id, request)), run + [Arrive(id, request)])
  {
    StillReturned(w, run, Arrive(id, request));
    TakeGoesOnwards(w, Arrive(id, request));
    var v := Take(w, Arrive(id, request));
    assert forall other, key | Holds(v, other, key) :: Holds(w, other, key);
    hide ReturnedIn, Sourced, Onwards, Holds;
    AccountStays(w, v, run, Arrive(id, request));
  }

  lemma CrashAccounted(w: World, run: seq<Step>)
    requires Accounted(w, run)
    ensures Accounted(Take(w, Crash), run + [Crash])
  {
    StillReturned(w, run, Crash);
    TakeGoesOnwards(w, Crash);
    var v := Take(w, Crash);
    assert forall other, key :: !Holds(v, other, key);
    hide ReturnedIn, Sourced, Onwards, Holds;
    AccountStays(w, v, run, Crash);
  }

  lemma NothingAccounted(w: World, run: seq<Step>, step: Step)
    requires Accounted(w, run)
    ensures Accounted(w, run + [step])
  {
    StillReturned(w, run, step);
    hide ReturnedIn, Sourced, Holds;
    AccountStays(w, w, run, step);
  }

  lemma StepAccounted(run: seq<Step>, step: Step)
    requires Accounted(Runs(EMPTY, run), run)
    ensures Accounted(Take(Runs(EMPTY, run), step), run + [step])
  {
    var w := Runs(EMPTY, run);
    RunKeeps(run);
    TakeGoesOnwards(w, step);
    hide Runs, Accounted, Inv, Onwards, ClaimKey, FinishKey, Sourced, ReturnedIn;
    if step.Crash? {
      CrashAccounted(w, run);
    } else if Take(w, step) == w {
      NothingAccounted(w, run, step);
    } else {
      var id := step.id;
      match step {
        case Arrive(_, request) => ArriveAccounted(w, run, id, request);
        case Claim(_) => ClaimAccounted(w, run, id);
        case Start(_) =>
          PhaseAccounted(w, run, step, id, Acting);
          LoggingAccounted(w.At(id, Acting), w.log + [id], run + [step]);
        case Return(_, reply) =>
          ReturnedLonger(run, step, id, reply);
          PhaseAccounted(w, run, step, id, Finishing(reply));
        case Finish(_) => FinishAccounted(w, run, id, w.Phase(id).reply);
        case FinishFails(_) =>
          CouldNotRecord(w.At(id, Answered(Result(INTERNAL))), run, id);
          PhaseAccounted(w, run, step, id, Answered(Result(INTERNAL)));
        case Lose(_) => PhaseAccounted(w, run, step, id, Gone);
        case Crash =>
      }
    }
  }

  lemma LoggingAccounted(w: World, log: seq<RequestId>, run: seq<Step>)
    requires Accounted(w, run)
    ensures Accounted(w.(log := log), run)
  {
    hide ReturnedIn;
    var v := w.(log := log);
    forall id, answer: Answer | Sourced(w, run, id, answer) ensures Sourced(v, run, id, answer) {
      SameRequestsSource(w, v, run, id, answer);
    }
    forall key, row: Row, author | WrittenFor(w, run, key, row, author) ensures WrittenFor(v, run, key, row, author) {
    }
    assert forall id, key :: Holds(v, id, key) <==> Holds(w, id, key);
  }

  lemma SameRequestsSource(w: World, v: World, run: seq<Step>, id: RequestId, answer: Answer)
    requires v.requests == w.requests && Sourced(w, run, id, answer)
    ensures Sourced(v, run, id, answer)
  {
    hide ReturnedIn;
    assert forall other :: SameIntent(w, id, other) ==> SameIntent(v, id, other);
    assert forall other, command :: OtherIntent(w, id, other, command) ==> OtherIntent(v, id, other, command);
  }

  lemma CouldNotRecord(v: World, run: seq<Step>, id: RequestId)
    requires id in v.requests && v.requests[id].request.Claims().Some?
    ensures Sourced(v, run + [FinishFails(id)], id, Result(INTERNAL))
  {
    var all := run + [FinishFails(id)];
    assert all[|run|] == FinishFails(id);
  }

  lemma {:induction false} AllAccounted(run: seq<Step>)
    ensures Accounted(Runs(EMPTY, run), run)
    decreases |run|
  {
    hide Take, Accounted;
    if run == [] {
      NothingYet();
    } else {
      var before, last := run[..|run| - 1], run[|run| - 1];
      assert run == before + [last];
      AllAccounted(before);
      StepAccounted(before, last);
    }
  }

  lemma NothingYet()
    ensures Accounted(EMPTY, [])
  {
  }

  /**
   * In every interleaving an answer has its source. A result is what the request itself returned when it was
   * carried out, or what another request of the same key and fingerprint returned; the internal error alone may
   * come of failing to record a result. A request told to wait repeats one that arrived before it, and one told
   * that its key is taken differs from one with that key, whose command it is told.
   */
  lemma AnswersHaveTheirSource(run: seq<Step>, id: RequestId)
    requires Runs(EMPTY, run).Phase(id).Answered?
    ensures Sourced(Runs(EMPTY, run), run, id, Runs(EMPTY, run).Phase(id).answer)
  {
    AllAccounted(run);
    hide Runs, Sourced;
  }

  /** A request that names no intent is never told anything but what it returned when it was carried out. */
  lemma UnkeyedGetsItsOwnReply(run: seq<Step>, id: RequestId)
    requires Runs(EMPTY, run).Phase(id).Answered? && NamesNoIntent(Runs(EMPTY, run).requests[id].request)
    ensures var answer := Runs(EMPTY, run).Phase(id).answer; answer.Result? && ReturnedIn(run, id, answer.reply)
  {
    AnswersHaveTheirSource(run, id);
    hide Runs, ReturnedIn;
  }

  // --------------------------------------------- and it does get an answer

  /** Neither its thread nor the process is lost. */
  predicate Undisturbed(run: seq<Step>, id: RequestId) {
    forall k | 0 <= k < |run| :: run[k] != Crash && run[k] != Lose(id)
  }

  /** On its way to being answered this reply, or there. */
  predicate Promised(w: World, id: RequestId, reply: Reply) {
    && id in w.requests && NamesNoIntent(w.requests[id].request)
    && (w.requests[id].phase == Finishing(reply) || w.requests[id].phase == Answered(Result(reply)))
  }

  lemma PromiseStep(w: World, step: Step, id: RequestId, reply: Reply)
    requires Promised(w, id, reply) && step != Crash && step != Lose(id)
    ensures Promised(Take(w, step), id, reply)
    ensures step == Finish(id) || w.Phase(id).Answered? ==> Take(w, step).Phase(id) == Answered(Result(reply))
  {
  }

  lemma PromisedAnswer(w: World, id: RequestId, reply: Reply)
    requires Promised(w, id, reply)
    ensures w.Phase(id).Answered? ==> w.Phase(id) == Answered(Result(reply))
  {
  }

  /**
   * Once such a request has returned, it is answered its reply in every run in which it is not lost, from the
   * moment it finishes; nothing that others do to any key stands in its way.
   */
  lemma {:induction false} UnkeyedIsAnswered(w: World, run: seq<Step>, id: RequestId, reply: Reply)
    requires Promised(w, id, reply) && Undisturbed(run, id)
    ensures Promised(Runs(w, run), id, reply)
    ensures Finish(id) in run || w.Phase(id).Answered? ==> Runs(w, run).Phase(id) == Answered(Result(reply))
    decreases |run|
  {
    hide Take, Promised;
    PromisedAnswer(w, id, reply);
    if run != [] {
      var before, last := run[..|run| - 1], run[|run| - 1];
      assert run == before + [last];
      UnkeyedIsAnswered(w, before, id, reply);
      PromiseStep(Runs(w, before), last, id, reply);
    }
  }

  // ------------------------------------------------------ what a claim says

  /**
   * A claim takes a free key, and of one that is taken it tells by fingerprint alone what it stands for: the
   * same request's outcome or that it is still running, a different one's command.
   */
  lemma ClaimsAreTold(w: World, id: RequestId, key: Key)
    requires w.Phase(id).Claiming? && w.requests[id].request.kind != Query && w.requests[id].request.key == Some(key)
    ensures var v, request := Take(w, Claim(id)), w.requests[id].request;
            && v.log == w.log && v.released == w.released && v.requests == w.requests[id := Active(request, v.Phase(id))]
            && (key !in w.rows ==>
                  v.Phase(id) == Ready && v.rows == w.rows[key := Row(request.name, request.fingerprint, InProgress)])
            && (key in w.rows ==>
                  && v.rows == w.rows && v.Phase(id).Answered?
                  && match v.Phase(id).answer
                     case StillRunning =>
                       w.rows[key].fingerprint == request.fingerprint && w.rows[key].status == InProgress
                     case Result(outcome) =>
                       w.rows[key].fingerprint == request.fingerprint && w.rows[key].status == Settled(outcome)
                     case UsedDifferently(command) =>
                       w.rows[key].fingerprint != request.fingerprint && w.rows[key].command == command)
  {
  }
}
