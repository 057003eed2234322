/** The dependency graph of a plan and its deterministic order: a ready set popped smallest first. */
module TaskGraphs {
  import opened Wrappers
  import opened FiniteSets

  /** An identifier; identifiers are totally ordered by their bits. */
  datatype TaskId = TaskId(bits: nat) {
    predicate Before(other: TaskId) {
      bits < other.bits
    }
  }

  datatype TargetMilestone = Captured | DevelopmentAvailable | TargetPublished

  datatype TaskDefinition = TaskDefinition(id: TaskId, name: string, dependencies: map<TaskId, TargetMilestone>)

  /** Each task with the tasks it needs. */
  type Dependencies = map<TaskId, set<TaskId>>

  datatype GraphError =
    | DuplicateTask(task: TaskId)
    | SelfDependency(task: TaskId)
    | UnknownDependency(task: TaskId, dependency: TaskId)
    | DependencyCycle(tasks: seq<TaskId>)

  datatype TaskGraph = TaskGraph(tasks: map<TaskId, TaskDefinition>, order: seq<TaskId>)

  function Elements(s: seq<TaskId>): set<TaskId> {
    set t | t in s
  }

  ghost predicate IsFirst(x: TaskId, s: set<TaskId>) {
    x in s && forall y | y in s && y != x :: x.Before(y)
  }

  lemma {:induction false} FindFirst(s: set<TaskId>) returns (x: TaskId)
    requires s != {}
    ensures IsFirst(x, s)
    decreases s
  {
    var some :| some in s;
    var below := set y | y in s && y.Before(some);
    x := some;
    if below != {} {
      assert some !in below;
      x := FindFirst(below);
    }
    forall y | y in s && y != x ensures x.Before(y) {
      if y.Before(some) {
        assert y in below;
      }
      assert some == TaskId(some.bits) && y == TaskId(y.bits);
    }
  }

  ghost function First(s: set<TaskId>): (x: TaskId)
    requires s != {}
    ensures IsFirst(x, s)
  {
    assert exists x :: IsFirst(x, s) by { var x := FindFirst(s); }
    var x :| IsFirst(x, s);
    x
  }

  predicate Closed(deps: Dependencies) {
    forall t | t in deps :: deps[t] <= deps.Keys
  }

  /** Tasks not yet placed whose dependencies all are. */
  function Ready(deps: Dependencies, done: set<TaskId>): set<TaskId> {
    set t | t in deps && t !in done && deps[t] <= done
  }

  /** What remains to be placed: always the smallest ready task next. */
  ghost function OrderFrom(deps: Dependencies, done: set<TaskId>): seq<TaskId>
    decreases deps.Keys - done
  {
    var ready := Ready(deps, done);
    if ready == {} then []
    else
      var next := First(ready);
      assert next in deps.Keys - done;
      [next] + OrderFrom(deps, done + {next})
  }

  ghost function Order(deps: Dependencies): seq<TaskId> {
    OrderFrom(deps, {})
  }

  /** The tasks no order can place. */
  ghost function Stuck(deps: Dependencies): set<TaskId> {
    deps.Keys - Elements(Order(deps))
  }

  ghost predicate Increasing(s: seq<TaskId>) {
    forall i, j | 0 <= i < j < |s| :: s[i].bits < s[j].bits
  }

  lemma FirstIsUnique(x: TaskId, y: TaskId, s: set<TaskId>)
    requires IsFirst(x, s) && IsFirst(y, s)
    ensures x == y
  {
    assert x != y ==> x.Before(y) && y.Before(x);
  }

  /** `BTreeSet::pop_first` of a set that is not empty. */
  method PopFirst(s: set<TaskId>) returns (first: TaskId, rest: set<TaskId>)
    requires s != {}
    ensures first == First(s)
    ensures rest == s - {first}
    ensures |rest| < |s|
  {
    ghost var least := First(s);
    first :| first in s && forall t | t in s && t != first :: first.Before(t);
    FirstIsUnique(first, least, s);
    rest := s - {first};
    StrictSubsetIsSmaller(rest, s);
  }

  /** The elements of a set, smallest first, as iterating a `BTreeSet` gives them. */
  ghost function InOrder(s: set<TaskId>): seq<TaskId>
    decreases s
  {
    if s == {} then [] else [First(s)] + InOrder(s - {First(s)})
  }

  lemma {:induction false} InOrderHolds(s: set<TaskId>, t: TaskId)
    ensures t in InOrder(s) <==> t in s
    decreases s
  {
    if s != {} {
      InOrderHolds(s - {First(s)}, t);
    }
  }

  lemma {:induction false} InOrderIncreases(s: set<TaskId>)
    ensures Increasing(InOrder(s))
    decreases s
  {
    if s != {} {
      var first, rest := First(s), InOrder(s - {First(s)});
      InOrderIncreases(s - {first});
      forall i | 0 <= i < |rest| ensures first.Before(rest[i]) {
        InOrderHolds(s - {first}, rest[i]);
      }
    }
  }

  method Ascending(s: set<TaskId>) returns (sorted: seq<TaskId>)
    ensures sorted == InOrder(s)
  {
    sorted := [];
    var rest := s;
    while rest != {}
      invariant sorted + InOrder(rest) == InOrder(s)
      decreases |rest|
    {
      var t;
      t, rest := PopFirst(rest);
      sorted := sorted + [t];
    }
  }

  function DependentsOf(deps: Dependencies, d: TaskId): set<TaskId> {
    set t | t in deps && d in deps[t]
  }

  predicate Listed(index: map<TaskId, set<TaskId>>, d: TaskId, t: TaskId) {
    d in index && t in index[d]
  }

  method IndexTask(index0: map<TaskId, set<TaskId>>, t: TaskId, dependencies: set<TaskId>)
    returns (index: map<TaskId, set<TaskId>>)
    ensures forall d, u :: Listed(index, d, u) <==> Listed(index0, d, u) || (u == t && d in dependencies)
  {
    index := index0;
    var rest := dependencies;
    while rest != {}
      invariant rest <= dependencies
      invariant forall d, u :: Listed(index, d, u) <==>
        Listed(index0, d, u) || (u == t && d in dependencies && d !in rest)
      decreases |rest|
    {
      var d;
      d, rest := PopFirst(rest);
      index := index[d := (if d in index then index[d] else {}) + {t}];
    }
  }

  /** The tasks waiting on each dependency. */
  method BuildDependents(deps: Dependencies) returns (index: map<TaskId, set<TaskId>>)
    ensures forall d, t :: Listed(index, d, t) <==> t in DependentsOf(deps, d)
  {
    index := map[];
    var rest := deps.Keys;
    while rest != {}
      invariant rest <= deps.Keys
      invariant forall d, t :: Listed(index, d, t) <==> t in DependentsOf(deps, d) && t !in rest
      decreases |rest|
    {
      var t;
      t, rest := PopFirst(rest);
      index := IndexTask(index, t, deps[t]);
    }
  }

  function Missing(needed: set<TaskId>, done: set<TaskId>): set<TaskId> {
    set d | d in needed && d !in done
  }

  /** How many of its dependencies a task still waits for. */
  function Outstanding(deps: Dependencies, done: set<TaskId>, t: TaskId): nat
    requires t in deps
  {
    |Missing(deps[t], done)|
  }

  /** Each count is what its task still waits for. */
  ghost predicate Counting(counts: map<TaskId, nat>, deps: Dependencies, done: set<TaskId>) {
    counts.Keys == deps.Keys && forall t | t in deps :: counts[t] == Outstanding(deps, done, t)
  }

  lemma CountsTell(counts: map<TaskId, nat>, deps: Dependencies, done: set<TaskId>, t: TaskId)
    requires Counting(counts, deps, done) && t in deps
    ensures counts[t] == 0 <==> deps[t] <= done
  {
    if deps[t] <= done {
      assert Missing(deps[t], done) == {};
    } else {
      var d := Outsider(deps[t], done);
      assert d in Missing(deps[t], done);
    }
  }

  /** Takes one off the count of every dependent of a placed task; those that reach zero are ready. */
  method Release(counts0: map<TaskId, nat>, ready0: set<TaskId>, dependents: set<TaskId>)
    returns (counts: map<TaskId, nat>, ready: set<TaskId>)
    requires forall t | t in dependents :: t in counts0 && counts0[t] >= 1
    ensures counts.Keys == counts0.Keys
    ensures forall t | t in counts0 :: counts[t] == if t in dependents then counts0[t] - 1 else counts0[t]
    ensures forall t: TaskId :: t in ready <==> t in ready0 || (t in dependents && counts0[t] == 1)
  {
    counts, ready := counts0, ready0;
    var rest := dependents;
    while rest != {}
      invariant rest <= dependents
      invariant counts.Keys == counts0.Keys
      invariant forall t | t in counts0 ::
        counts[t] == if t in dependents && t !in rest then counts0[t] - 1 else counts0[t]
      invariant forall t: TaskId :: t in ready <==> t in ready0 || (t in dependents && t !in rest && counts0[t] == 1)
      decreases |rest|
    {
      var t;
      t, rest := PopFirst(rest);
      counts := counts[t := counts[t] - 1];
      if counts[t] == 0 {
        ready := ready + {t};
      }
    }
  }

  lemma PlacingCounts(deps: Dependencies, done: set<TaskId>, placed: TaskId, t: TaskId)
    requires t in deps && placed !in done
    ensures Outstanding(deps, done, t) == Outstanding(deps, done + {placed}, t) + (if placed in deps[t] then 1 else 0)
  {
    if placed in deps[t] {
      assert Missing(deps[t], done) == Missing(deps[t], done + {placed}) + {placed};
    } else {
      assert Missing(deps[t], done) == Missing(deps[t], done + {placed});
    }
  }

  lemma ReadyByCount(deps: Dependencies, counts: map<TaskId, nat>, done: set<TaskId>, ready: set<TaskId>)
    requires Counting(counts, deps, done)
    requires forall t: TaskId :: t in ready <==> t in deps && t !in done && counts[t] == 0
    ensures ready == Ready(deps, done)
  {
    hide Outstanding;
    forall t | t in deps ensures counts[t] == 0 <==> deps[t] <= done {
      CountsTell(counts, deps, done, t);
    }
  }

  /** Everything placed was placed after all it needs. */
  ghost predicate Settled(deps: Dependencies, done: set<TaskId>) {
    forall t | t in done :: t in deps && deps[t] <= done
  }

  /** How placing `t` changes what one task waits for. */
  lemma PlacingOne(deps: Dependencies, counts: map<TaskId, nat>, done: set<TaskId>, t: TaskId, u: TaskId)
    requires Counting(counts, deps, done) && Settled(deps, done) && t in Ready(deps, done) && u in deps
    ensures t in deps[u] ==> counts[u] >= 1
    ensures Outstanding(deps, done + {t}, u) == if t in deps[u] then counts[u] - 1 else counts[u]
    ensures (u in Ready(deps, done) && u != t) || (t in deps[u] && counts[u] == 1)
            <==> u !in done + {t} && Outstanding(deps, done + {t}, u) == 0
  {
    hide Outstanding;
    PlacingCounts(deps, done, t, u);
    CountsTell(counts, deps, done, u);
    CountsTell(counts, deps, done, t);
  }

  lemma DependentsWait(deps: Dependencies, counts: map<TaskId, nat>, done: set<TaskId>, t: TaskId)
    requires Counting(counts, deps, done) && Settled(deps, done) && t in Ready(deps, done)
    ensures forall u | u in DependentsOf(deps, t) :: u in counts && counts[u] >= 1
  {
    forall u | u in DependentsOf(deps, t) ensures u in counts && counts[u] >= 1 {
      PlacingOne(deps, counts, done, t, u);
    }
  }

  lemma Placed(
    deps: Dependencies, counts0: map<TaskId, nat>, counts: map<TaskId, nat>, ready: set<TaskId>,
    done: set<TaskId>, t: TaskId)
    requires counts.Keys == counts0.Keys == deps.Keys
    requires Counting(counts0, deps, done) && Settled(deps, done) && t in Ready(deps, done)
    requires forall u | u in deps :: counts0[u] == counts[u] + (if t in deps[u] then 1 else 0)
    requires forall u :: u in ready <==>
      u in Ready(deps, done) - {t} || (u in DependentsOf(deps, t) && u in counts0 && counts0[u] == 1)
    ensures Counting(counts, deps, done + {t}) && Settled(deps, done + {t})
    ensures ready == Ready(deps, done + {t})
  {
    hide Outstanding;
    forall u | u in deps
      ensures counts[u] == Outstanding(deps, done + {t}, u)
      ensures u in ready <==> u !in done + {t} && counts[u] == 0
    {
      PlacingOne(deps, counts0, done, t, u);
    }
    ReadyByCount(deps, counts, done + {t}, ready);
  }

  /** One placement keeps the counts and the ready set true. */
  method Place(
    deps: Dependencies, counts0: map<TaskId, nat>, ready0: set<TaskId>, ghost done: set<TaskId>, t: TaskId,
    dependents: set<TaskId>)
    returns (counts: map<TaskId, nat>, ready: set<TaskId>)
    requires Counting(counts0, deps, done) && Settled(deps, done)
    requires t in Ready(deps, done) && ready0 == Ready(deps, done) - {t}
    requires dependents == DependentsOf(deps, t)
    ensures Counting(counts, deps, done + {t}) && Settled(deps, done + {t})
    ensures ready == Ready(deps, done + {t})
  {
    hide Ready, Settled, Outstanding;
    DependentsWait(deps, counts0, done, t);
    counts, ready := Release(counts0, ready0, dependents);
    Placed(deps, counts0, counts, ready, done, t);
  }

  lemma OrderSplits(deps: Dependencies, done: set<TaskId>, t: TaskId, ordered: seq<TaskId>)
    requires Ready(deps, done) != {} && t == First(Ready(deps, done))
    ensures ordered + OrderFrom(deps, done) == ordered + [t] + OrderFrom(deps, done + {t})
    ensures t in Ready(deps, done) && t in deps && t !in done
  {
    assert OrderFrom(deps, done) == [t] + OrderFrom(deps, done + {t});
  }

  lemma NothingReady(deps: Dependencies, done: set<TaskId>, ordered: seq<TaskId>)
    requires Ready(deps, done) == {}
    ensures ordered + OrderFrom(deps, done) == ordered
  {
  }

  /** Pops ready tasks until none is left. */
  method Drain(
    deps: Dependencies, counts0: map<TaskId, nat>, ready0: set<TaskId>, dependents: map<TaskId, set<TaskId>>)
    returns (ordered: seq<TaskId>, counts: map<TaskId, nat>)
    requires Counting(counts0, deps, {}) && ready0 == Ready(deps, {})
    requires forall d, t :: Listed(dependents, d, t) <==> t in DependentsOf(deps, d)
    ensures ordered == Order(deps)
    ensures Counting(counts, deps, Elements(ordered)) && Ready(deps, Elements(ordered)) == {}
    ensures Elements(ordered) <= deps.Keys && |ordered| == |Elements(ordered)|
  {
    hide Counting, DependentsOf, Ready, OrderFrom;
    ordered, counts := [], counts0;
    assert Elements(ordered) == {};
    var ready := ready0;
    while ready != {}
      invariant Counting(counts, deps, Elements(ordered))
      invariant ready == Ready(deps, Elements(ordered))
      invariant Settled(deps, Elements(ordered)) && |ordered| == |Elements(ordered)|
      invariant ordered + OrderFrom(deps, Elements(ordered)) == Order(deps)
      decreases deps.Keys - Elements(ordered)
    {
      ghost var done, before := Elements(ordered), ordered;
      OrderSplits(deps, done, First(ready), before);
      var t;
      t, ready := PopFirst(ready);
      ordered := ordered + [t];
      assert Elements(ordered) == done + {t};
      var released := if t in dependents then dependents[t] else {};
      assert released == DependentsOf(deps, t) by {
        assert forall u :: u in released <==> Listed(dependents, t, u);
      }
      counts, ready := Place(deps, counts, ready, done, t, released);
    }
    NothingReady(deps, Elements(ordered), ordered);
  }

  lemma NothingPlaced(deps: Dependencies, t: TaskId)
    requires t in deps
    ensures Outstanding(deps, {}, t) == |deps[t]|
  {
    assert Missing(deps[t], {}) == deps[t];
  }

  /** How many tasks each one waits for at the start, and those that wait for none. */
  method Waits(deps: Dependencies) returns (counts: map<TaskId, nat>, ready: set<TaskId>)
    ensures Counting(counts, deps, {})
    ensures ready == Ready(deps, {})
  {
    hide Outstanding;
    counts := map t | t in deps :: |deps[t]|;
    forall t | t in deps ensures counts[t] == Outstanding(deps, {}, t) {
      NothingPlaced(deps, t);
    }
    ready := set t | t in counts && counts[t] == 0;
    ReadyByCount(deps, counts, {}, ready);
  }

  method TopologicalOrder(deps: Dependencies) returns (r: Result<seq<TaskId>, GraphError>)
    ensures r == if Stuck(deps) == {} then Ok(Order(deps)) else Err(DependencyCycle(InOrder(Stuck(deps))))
  {
    hide Order, OrderFrom, Ready, Outstanding;
    var counts, ready := Waits(deps);
    var dependents := BuildDependents(deps);
    var ordered;
    ordered, counts := Drain(deps, counts, ready, dependents);
    if |ordered| != |deps| {
      var waiting: set<TaskId> := set t | t in counts && counts[t] > 0;
      StillWaiting(deps, ordered, counts, waiting);
      var tasks := Ascending(waiting);
      StuckByCount(deps, ordered);
      r := Err(DependencyCycle(tasks));
    } else {
      StuckByCount(deps, ordered);
      r := Ok(ordered);
    }
  }

  /** Every task is placed exactly when as many are placed as there are. */
  lemma StuckByCount(deps: Dependencies, ordered: seq<TaskId>)
    requires ordered == Order(deps) && Elements(ordered) <= deps.Keys && |ordered| == |Elements(ordered)|
    ensures Stuck(deps) == {} <==> |ordered| == |deps|
  {
    hide Order, OrderFrom;
    if Elements(ordered) == deps.Keys {
      assert Stuck(deps) == {};
    } else {
      StrictSubsetIsSmaller(Elements(ordered), deps.Keys);
      var t := Outsider(deps.Keys, Elements(ordered));
      assert t in Stuck(deps);
    }
  }

  /** Once nothing is ready, a count above zero marks exactly the tasks that were never placed. */
  lemma StillWaiting(deps: Dependencies, ordered: seq<TaskId>, counts: map<TaskId, nat>, waiting: set<TaskId>)
    requires ordered == Order(deps) && Ready(deps, Elements(ordered)) == {}
    requires Counting(counts, deps, Elements(ordered))
    requires forall t: TaskId :: t in waiting <==> t in counts && counts[t] > 0
    ensures waiting == Stuck(deps)
  {
    forall t: TaskId ensures t in waiting <==> t in Stuck(deps) {
      if t in deps {
        CountsTell(counts, deps, Elements(ordered), t);
        if t in ordered {
          PlacedAfterDependencies(deps, {}, t);
        } else {
          assert t !in Ready(deps, Elements(ordered));
        }
      }
    }
  }

  lemma {:induction false} PlacedAfterDependencies(deps: Dependencies, done: set<TaskId>, t: TaskId)
    requires t in OrderFrom(deps, done)
    ensures t in deps && deps[t] <= done + Elements(OrderFrom(deps, done))
    decreases deps.Keys - done
  {
    var next := First(Ready(deps, done));
    assert next in deps.Keys - done;
    var rest := OrderFrom(deps, done + {next});
    assert OrderFrom(deps, done) == [next] + rest;
    assert Elements([next] + rest) == {next} + Elements(rest);
    if t != next {
      assert t in rest;
      PlacedAfterDependencies(deps, done + {next}, t);
    }
  }

  /** What each task of a plan needs, whatever the milestone it needs it at. */
  function Needs(tasks: map<TaskId, TaskDefinition>): Dependencies {
    map t | t in tasks :: tasks[t].dependencies.Keys
  }

  /** The dependencies of a task that no graph may have: itself, and tasks that do not exist. */
  function Faults(tasks: map<TaskId, TaskDefinition>, t: TaskId): set<TaskId>
    requires t in tasks
  {
    set d | d in tasks[t].dependencies && (d == t || d !in tasks)
  }

  function FaultyTasks(tasks: map<TaskId, TaskDefinition>): set<TaskId> {
    set t | t in tasks && Faults(tasks, t) != {}
  }

  function Fault(t: TaskId, d: TaskId): GraphError {
    if d == t then SelfDependency(t) else UnknownDependency(t, d)
  }

  /** The graph of tasks with distinct identifiers, or the first thing wrong with them. */
  ghost function GraphOf(tasks: map<TaskId, TaskDefinition>): Result<TaskGraph, GraphError> {
    if FaultyTasks(tasks) != {} then
      var t := First(FaultyTasks(tasks));
      Err(Fault(t, First(Faults(tasks, t))))
    else if Stuck(Needs(tasks)) != {} then
      Err(DependencyCycle(InOrder(Stuck(Needs(tasks)))))
    else
      Ok(TaskGraph(tasks, Order(Needs(tasks))))
  }

  ghost predicate Distinct(tasks: seq<TaskDefinition>) {
    forall i, j | 0 <= i < j < |tasks| :: tasks[i].id != tasks[j].id
  }

  /** Inserting the tasks into a map one after another. */
  function ById(tasks: seq<TaskDefinition>): map<TaskId, TaskDefinition> {
    if tasks == [] then map[]
    else
      var last := tasks[|tasks| - 1];
      ById(tasks[..|tasks| - 1])[last.id := last]
  }

  lemma {:induction false} KeysAreIdentifiers(tasks: seq<TaskDefinition>, id: TaskId)
    ensures id in ById(tasks) <==> exists j | 0 <= j < |tasks| :: tasks[j].id == id
  {
    if tasks != [] {
      var init := tasks[..|tasks| - 1];
      KeysAreIdentifiers(init, id);
      assert forall j | 0 <= j < |init| :: init[j] == tasks[j];
      if j :| 0 <= j < |tasks| && tasks[j].id == id && j < |init| {
        assert init[j].id == id;
      }
    }
  }

  /** The first identifier that a task from position `i` on shares with an earlier one. */
  function RepeatFrom(tasks: seq<TaskDefinition>, i: nat): Option<TaskId>
    requires i <= |tasks|
    decreases |tasks| - i
  {
    if i == |tasks| then None
    else if exists j | 0 <= j < i :: tasks[j].id == tasks[i].id then Some(tasks[i].id)
    else RepeatFrom(tasks, i + 1)
  }

  /** What making a graph of these definitions, in this order, gives. */
  ghost function GraphOfAll(tasks: seq<TaskDefinition>): Result<TaskGraph, GraphError> {
    match RepeatFrom(tasks, 0)
    case Some(id) => Err(DuplicateTask(id))
    case None => GraphOf(ById(tasks))
  }

  method CheckDependencies(tasks: map<TaskId, TaskDefinition>, t: TaskId) returns (fault: Option<GraphError>)
    requires t in tasks
    ensures fault == if Faults(tasks, t) == {} then None else Some(Fault(t, First(Faults(tasks, t))))
  {
    var rest := tasks[t].dependencies.Keys;
    while rest != {}
      invariant rest <= tasks[t].dependencies.Keys
      invariant Faults(tasks, t) <= rest
      decreases |rest|
    {
      ghost var before := rest;
      var d;
      d, rest := PopFirst(rest);
      if d == t || d !in tasks {
        assert d in Faults(tasks, t) && IsFirst(d, Faults(tasks, t));
        FirstIsUnique(d, First(Faults(tasks, t)), Faults(tasks, t));
        return Some(Fault(t, d));
      }
      assert d !in Faults(tasks, t);
    }
    return None;
  }

  method NewGraph(tasks: seq<TaskDefinition>) returns (r: Result<TaskGraph, GraphError>)
    ensures r == GraphOfAll(tasks)
  {
    var byId: map<TaskId, TaskDefinition> := map[];
    var i := 0;
    while i < |tasks|
      invariant 0 <= i <= |tasks|
      invariant byId == ById(tasks[..i])
      invariant RepeatFrom(tasks, i) == RepeatFrom(tasks, 0)
    {
      KeysAreIdentifiers(tasks[..i], tasks[i].id);
      if tasks[i].id in byId {
        return Err(DuplicateTask(tasks[i].id));
      }
      assert tasks[..i + 1][..i] == tasks[..i];
      byId := byId[tasks[i].id := tasks[i]];
      i := i + 1;
    }
    assert tasks[..i] == tasks;
    r := GraphById(byId);
  }

  method GraphById(tasks: map<TaskId, TaskDefinition>) returns (r: Result<TaskGraph, GraphError>)
    ensures r == GraphOf(tasks)
  {
    hide Order, Stuck, InOrder;
    var rest := tasks.Keys;
    while rest != {}
      invariant rest <= tasks.Keys
      invariant FaultyTasks(tasks) <= rest
      decreases |rest|
    {
      var t;
      t, rest := PopFirst(rest);
      var fault := CheckDependencies(tasks, t);
      if fault.Some? {
        assert IsFirst(t, FaultyTasks(tasks));
        FirstIsUnique(t, First(FaultyTasks(tasks)), FaultyTasks(tasks));
        return Err(fault.value);
      }
    }
    var order :- TopologicalOrder(Needs(tasks));
    return Ok(TaskGraph(tasks, order));
  }
}
