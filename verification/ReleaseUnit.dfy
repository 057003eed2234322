/** Sets of tasks that ship together, and why any such set can be ordered on its own. */
module ReleaseUnits {
  import opened Wrappers
  import opened TaskGraphs
  import opened TaskGraphLaws

  datatype ReleaseUnit = ReleaseUnit(id: nat, tasks: set<TaskId>)

  datatype ReleaseUnitError = Empty | MissingPrerequisite(task: TaskId, missing: seq<TaskId>)

  /** What a selected task needs and the selection leaves out; a task with no entry needs nothing. */
  function Omitted(tasks: set<TaskId>, deps: Dependencies, t: TaskId): set<TaskId> {
    if t in deps then set d | d in deps[t] && d !in tasks else {}
  }

  function Lacking(tasks: set<TaskId>, deps: Dependencies): set<TaskId> {
    set t | t in tasks && Omitted(tasks, deps, t) != {}
  }

  ghost function NewUnit(id: nat, tasks: set<TaskId>, deps: Dependencies): Result<ReleaseUnit, ReleaseUnitError> {
    if tasks == {} then Err(Empty)
    else if Lacking(tasks, deps) == {} then Ok(ReleaseUnit(id, tasks))
    else
      var t := First(Lacking(tasks, deps));
      Err(MissingPrerequisite(t, InOrder(Omitted(tasks, deps, t))))
  }

  ghost predicate ClosedUnder(tasks: set<TaskId>, deps: Dependencies) {
    forall t, d | t in tasks && t in deps && d in deps[t] :: d in tasks
  }

  /** A unit is any selection that is not empty and leaves out nothing it needs. */
  lemma AcceptedExactly(id: nat, tasks: set<TaskId>, deps: Dependencies)
    ensures NewUnit(id, tasks, deps).Ok? <==> tasks != {} && ClosedUnder(tasks, deps)
    ensures NewUnit(id, tasks, deps).Ok? ==> NewUnit(id, tasks, deps).value == ReleaseUnit(id, tasks)
    ensures NewUnit(id, tasks, deps) == Err(Empty) <==> tasks == {}
  {
    if Lacking(tasks, deps) == {} {
      forall t, d | t in tasks && t in deps && d in deps[t] ensures d in tasks {
        assert t !in Lacking(tasks, deps);
        assert d !in Omitted(tasks, deps, t);
      }
    } else {
      var t :| t in Lacking(tasks, deps);
      var d :| d in Omitted(tasks, deps, t);
      assert t in tasks && t in deps && d in deps[t] && d !in tasks;
    }
  }

  /** The refusal names the smallest incomplete task and everything the selection omits for it. */
  lemma RefusalNamesWhatIsMissing(id: nat, tasks: set<TaskId>, deps: Dependencies, d: TaskId)
    requires NewUnit(id, tasks, deps).Err? && tasks != {}
    ensures NewUnit(id, tasks, deps).error.MissingPrerequisite?
    ensures var e := NewUnit(id, tasks, deps).error;
            && e.task in tasks && e.task in deps && Increasing(e.missing)
            && (d in e.missing <==> d in deps[e.task] && d !in tasks)
            && forall t | t in tasks && t.bits < e.task.bits && t in deps :: deps[t] <= tasks
  {
    var first := First(Lacking(tasks, deps));
    var omitted := Omitted(tasks, deps, first);
    InOrderIncreases(omitted);
    InOrderHolds(omitted, d);
    forall t | t in tasks && t.Before(first) && t in deps ensures deps[t] <= tasks {
      assert t !in Lacking(tasks, deps);
      forall x | x in deps[t] ensures x in tasks {
        assert x !in Omitted(tasks, deps, t);
      }
    }
  }

  /** Nothing a unit depends on, however indirectly, is outside it. */
  lemma {:induction false} TransitivelyClosed(tasks: set<TaskId>, deps: Dependencies, w: seq<TaskId>, k: nat)
    requires ClosedUnder(tasks, deps)
    requires Walk(deps, w) && w[0] in tasks && k < |w|
    ensures w[k] in tasks
  {
    if k > 0 {
      TransitivelyClosed(tasks, deps, w, k - 1);
    }
  }

  function Restrict(deps: Dependencies, tasks: set<TaskId>): Dependencies {
    map t | t in deps && t in tasks :: deps[t]
  }

  function Keep(s: seq<TaskId>, tasks: set<TaskId>): seq<TaskId> {
    if s == [] then [] else (if s[0] in tasks then [s[0]] else []) + Keep(s[1..], tasks)
  }

  lemma ReadyRestricts(tasks: set<TaskId>, deps: Dependencies, done: set<TaskId>)
    requires ClosedUnder(tasks, deps)
    ensures Ready(Restrict(deps, tasks), done * tasks) == Ready(deps, done) * tasks
  {
    forall t ensures t in Ready(Restrict(deps, tasks), done * tasks) <==> t in Ready(deps, done) * tasks {
      if t in deps && t in tasks && deps[t] <= done {
        forall d | d in deps[t] ensures d in done * tasks {
        }
      }
    }
  }

  lemma FirstRestricts(s: set<TaskId>, tasks: set<TaskId>)
    requires s != {} && First(s) in tasks
    ensures s * tasks != {} && First(s * tasks) == First(s)
  {
    assert First(s) in s * tasks;
    assert IsFirst(First(s), s * tasks);
    FirstIsUnique(First(s), First(s * tasks), s * tasks);
  }

  lemma {:induction false} OrderRestrictsFrom(tasks: set<TaskId>, deps: Dependencies, done: set<TaskId>)
    requires ClosedUnder(tasks, deps)
    ensures Keep(OrderFrom(deps, done), tasks) == OrderFrom(Restrict(deps, tasks), done * tasks)
    decreases deps.Keys - done
  {
    hide ClosedUnder, Restrict;
    var ready := Ready(deps, done);
    ReadyRestricts(tasks, deps, done);
    if ready != {} {
      var next := First(ready);
      assert next in deps.Keys - done;
      OrderRestrictsFrom(tasks, deps, done + {next});
      var rest := OrderFrom(deps, done + {next});
      assert OrderFrom(deps, done) == [next] + rest && ([next] + rest)[1..] == rest;
      if next in tasks {
        FirstRestricts(ready, tasks);
        assert (done + {next}) * tasks == done * tasks + {next};
      } else {
        assert (done + {next}) * tasks == done * tasks;
      }
    }
  }

  /** Filtering the order of the whole graph gives the order of the unit's own graph. */
  lemma OrderRestricts(tasks: set<TaskId>, deps: Dependencies)
    requires ClosedUnder(tasks, deps)
    ensures Keep(Order(deps), tasks) == Order(Restrict(deps, tasks))
  {
    assert {} * tasks == {};
    OrderRestrictsFrom(tasks, deps, {});
  }

  lemma {:induction false} KeepHolds(s: seq<TaskId>, tasks: set<TaskId>, t: TaskId)
    ensures t in Keep(s, tasks) <==> t in s && t in tasks
  {
    if s != [] {
      assert s == [s[0]] + s[1..];
      KeepHolds(s[1..], tasks, t);
    }
  }

  function Selected(all: map<TaskId, TaskDefinition>, tasks: set<TaskId>): map<TaskId, TaskDefinition> {
    map t | t in all && t in tasks :: all[t]
  }

  lemma NoFaultsSelected(tasks: set<TaskId>, all: map<TaskId, TaskDefinition>)
    requires FaultyTasks(all) == {} && ClosedUnder(tasks, Needs(all))
    ensures FaultyTasks(Selected(all, tasks)) == {}
  {
    var own := Selected(all, tasks);
    forall t | t in own ensures Faults(own, t) == {} {
      assert t !in FaultyTasks(all);
      forall d | d in own[t].dependencies ensures d !in Faults(own, t) {
        assert d !in Faults(all, t);
        assert d in Needs(all)[t];
      }
    }
  }

  lemma NoneStuckSelected(tasks: set<TaskId>, deps: Dependencies)
    requires Stuck(deps) == {} && ClosedUnder(tasks, deps)
    ensures Stuck(Restrict(deps, tasks)) == {}
  {
    OrderRestricts(tasks, deps);
    forall t | t in Restrict(deps, tasks) ensures t !in Stuck(Restrict(deps, tasks)) {
      KeepHolds(Order(deps), tasks, t);
      assert t !in Stuck(deps);
    }
  }

  /** A unit taken from a sound graph is a sound graph, in the order the whole graph gives it. */
  lemma UnitIsAGraph(id: nat, tasks: set<TaskId>, all: map<TaskId, TaskDefinition>)
    requires GraphOf(all).Ok? && NewUnit(id, tasks, Needs(all)).Ok?
    ensures GraphOf(Selected(all, tasks)) ==
      Ok(TaskGraph(Selected(all, tasks), Keep(GraphOf(all).value.order, tasks)))
  {
    hide Order, Stuck, Faults;
    var own, deps := Selected(all, tasks), Needs(all);
    AcceptedExactly(id, tasks, deps);
    assert Needs(own) == Restrict(deps, tasks);
    OrderRestricts(tasks, deps);
    NoFaultsSelected(tasks, all);
    NoneStuckSelected(tasks, deps);
  }
}
