/** What the order and the cycle diagnosis of a task graph mean. */
module TaskGraphLaws {
  import opened Wrappers
  import opened FiniteSets
  import opened TaskGraphs

  ghost predicate NoRepeats(s: seq<TaskId>) {
    forall i, j | 0 <= i < j < |s| :: s[i] != s[j]
  }

  ghost predicate DependenciesFirst(deps: Dependencies, s: seq<TaskId>) {
    forall k | 0 <= k < |s| :: s[k] in deps && deps[s[k]] <= Elements(s[..k])
  }

  /** Every task once, each after everything it needs. */
  ghost predicate IsSchedule(deps: Dependencies, s: seq<TaskId>) {
    NoRepeats(s) && Elements(s) == deps.Keys && DependenciesFirst(deps, s)
  }

  /** At the first place where the two differ, `a` has the smaller task. */
  ghost predicate FirstDiffersBelow(a: seq<TaskId>, b: seq<TaskId>) {
    exists k | 0 <= k < |a| && k < |b| :: a[..k] == b[..k] && a[k].bits < b[k].bits
  }

  /** Each task of `s` is ready when its turn comes. */
  ghost predicate Playable(deps: Dependencies, done: set<TaskId>, s: seq<TaskId>) {
    forall k | 0 <= k < |s| :: s[k] in Ready(deps, done + Elements(s[..k]))
  }

  lemma ElementsOfCons(t: TaskId, s: seq<TaskId>, done: set<TaskId>)
    ensures done + Elements([t] + s) == (done + {t}) + Elements(s)
  {
  }

  lemma PlayFirst(deps: Dependencies, done: set<TaskId>, t: TaskId, s: seq<TaskId>)
    requires t in Ready(deps, done)
    ensures Playable(deps, done, [t] + s) <==> Playable(deps, done + {t}, s)
  {
    var all := [t] + s;
    assert done + Elements(all[..0]) == done;
    forall k | 0 <= k < |s|
      ensures all[k + 1] == s[k]
      ensures done + Elements(all[..k + 1]) == (done + {t}) + Elements(s[..k])
    {
      assert all[..k + 1] == [t] + s[..k];
      ElementsOfCons(t, s[..k], done);
    }
    if Playable(deps, done, all) {
      forall k | 0 <= k < |s| ensures s[k] in Ready(deps, (done + {t}) + Elements(s[..k])) {
        assert all[k + 1] in Ready(deps, done + Elements(all[..k + 1]));
      }
    }
    if Playable(deps, done + {t}, s) {
      forall k | 0 <= k < |all| ensures all[k] in Ready(deps, done + Elements(all[..k])) {
        if k > 0 {
          assert s[k - 1] in Ready(deps, (done + {t}) + Elements(s[..k - 1]));
        }
      }
    }
  }

  /** The order is playable and stops only when nothing is ready. */
  lemma {:induction false} OrderPlays(deps: Dependencies, done: set<TaskId>)
    ensures Playable(deps, done, OrderFrom(deps, done))
    ensures Ready(deps, done + Elements(OrderFrom(deps, done))) == {}
    decreases deps.Keys - done
  {
    if Ready(deps, done) == {} {
      assert done + Elements([]) == done;
    } else {
      var next := First(Ready(deps, done));
      assert next in deps.Keys - done;
      OrderPlays(deps, done + {next});
      PlayFirst(deps, done, next, OrderFrom(deps, done + {next}));
      ElementsOfCons(next, OrderFrom(deps, done + {next}), done);
    }
  }

  lemma PlayableIsOrdered(deps: Dependencies, s: seq<TaskId>)
    ensures Playable(deps, {}, s) <==> NoRepeats(s) && DependenciesFirst(deps, s)
  {
    forall k | 0 <= k < |s|
      ensures {} + Elements(s[..k]) == Elements(s[..k])
      ensures s[k] in Elements(s[..k]) <==> exists i | 0 <= i < k :: s[i] == s[k]
    {
      if s[k] in Elements(s[..k]) {
        var i :| 0 <= i < |s[..k]| && s[..k][i] == s[k];
        assert s[i] == s[k];
      }
      forall i | 0 <= i < k ensures s[i] in s[..k] {
        assert s[..k][i] == s[i];
      }
    }
    if Playable(deps, {}, s) {
      forall i, j | 0 <= i < j < |s| ensures s[i] != s[j] {
        assert s[j] in Ready(deps, {} + Elements(s[..j]));
      }
      forall k | 0 <= k < |s| ensures s[k] in deps && deps[s[k]] <= Elements(s[..k]) {
        assert s[k] in Ready(deps, {} + Elements(s[..k]));
      }
    }
  }

  lemma OrderIsSchedule(deps: Dependencies)
    requires Stuck(deps) == {}
    ensures IsSchedule(deps, Order(deps))
  {
    var order := Order(deps);
    OrderPlays(deps, {});
    PlayableIsOrdered(deps, order);
    assert forall t | t in Elements(order) :: t in deps;
    assert deps.Keys <= Elements(order);
  }

  lemma PrependSame(t: TaskId, a: seq<TaskId>, b: seq<TaskId>)
    requires FirstDiffersBelow(a, b)
    ensures FirstDiffersBelow([t] + a, [t] + b)
  {
    var k :| 0 <= k < |a| && k < |b| && a[..k] == b[..k] && a[k].bits < b[k].bits;
    assert ([t] + a)[..k + 1] == [t] + a[..k] == ([t] + b)[..k + 1];
    assert ([t] + a)[k + 1].bits < ([t] + b)[k + 1].bits;
  }

  lemma PlayableHead(deps: Dependencies, done: set<TaskId>, s: seq<TaskId>)
    requires Playable(deps, done, s) && s != []
    ensures s[0] in Ready(deps, done) && Playable(deps, done + {s[0]}, s[1..])
    ensures done + Elements(s) == (done + {s[0]}) + Elements(s[1..])
  {
    assert done + Elements(s[..0]) == done;
    assert s == [s[0]] + s[1..];
    PlayFirst(deps, done, s[0], s[1..]);
    ElementsOfCons(s[0], s[1..], done);
  }

  lemma NothingLeft(deps: Dependencies, done: set<TaskId>)
    requires deps.Keys <= done + Elements([])
    ensures Ready(deps, done) == {}
  {
  }

  lemma {:induction false} OrderFromIsLeast(deps: Dependencies, done: set<TaskId>, s: seq<TaskId>)
    requires Playable(deps, done, s) && deps.Keys <= done + Elements(s)
    ensures OrderFrom(deps, done) == s || FirstDiffersBelow(OrderFrom(deps, done), s)
    decreases |s|
  {
    hide Playable, Ready, Elements, FirstDiffersBelow;
    var order, ready := OrderFrom(deps, done), Ready(deps, done);
    if s == [] {
      NothingLeft(deps, done);
    } else {
      PlayableHead(deps, done, s);
      var rest := OrderFrom(deps, done + {First(ready)});
      assert order == [First(ready)] + rest;
      if s[0] == First(ready) {
        OrderFromIsLeast(deps, done + {s[0]}, s[1..]);
        assert s == [s[0]] + s[1..];
        if rest != s[1..] {
          PrependSame(s[0], rest, s[1..]);
        }
      } else {
        SmallerHead(order, s);
      }
    }
  }

  lemma SmallerHead(a: seq<TaskId>, b: seq<TaskId>)
    requires a != [] && b != [] && a[0].Before(b[0])
    ensures FirstDiffersBelow(a, b)
  {
    assert a[..0] == b[..0];
  }

  /** Of all the ways to run the tasks, the order is the lexicographically least. */
  lemma OrderIsLeast(deps: Dependencies, s: seq<TaskId>)
    requires IsSchedule(deps, s)
    ensures Stuck(deps) == {}
    ensures Order(deps) == s || FirstDiffersBelow(Order(deps), s)
  {
    PlayableIsOrdered(deps, s);
    assert {} + Elements(s) == deps.Keys;
    OrderFromIsLeast(deps, {}, s);
    AnyScheduleMeansNoneStuck(deps, s);
  }

  lemma AnyScheduleMeansNoneStuck(deps: Dependencies, s: seq<TaskId>)
    requires IsSchedule(deps, s)
    ensures Stuck(deps) == {}
  {
    hide IsSchedule, OrderFrom, Playable;
    OrderPlays(deps, {});
    var placed := Elements(Order(deps));
    assert {} + placed == placed;
    forall t | t in deps ensures t in placed {
      EarliestUnplaced(deps, s, placed, t);
    }
    assert Stuck(deps) == {};
  }

  lemma EarliestUnplaced(deps: Dependencies, s: seq<TaskId>, placed: set<TaskId>, t: TaskId)
    requires IsSchedule(deps, s) && Ready(deps, placed) == {}
    requires t in deps
    ensures t in placed
  {
    assert t in Elements(s);
    var k :| 0 <= k < |s| && s[k] == t;
    PrefixPlaced(deps, s, placed, k + 1);
    assert s[..k + 1][k] in s[..k + 1];
  }

  lemma {:induction false} PrefixPlaced(deps: Dependencies, s: seq<TaskId>, placed: set<TaskId>, k: nat)
    requires IsSchedule(deps, s) && Ready(deps, placed) == {} && k <= |s|
    ensures forall t | t in s[..k] :: t in placed
  {
    if k > 0 {
      PrefixPlaced(deps, s, placed, k - 1);
      assert s[..k] == s[..k - 1] + [s[k - 1]];
      assert s[k - 1] !in Ready(deps, placed);
    }
  }

  ghost predicate NeedsOneOf(deps: Dependencies, s: set<TaskId>, t: TaskId) {
    t in deps && exists d :: d in deps[t] && d in s
  }

  /** Everything in the set waits for something in it. */
  ghost predicate Blocked(deps: Dependencies, s: set<TaskId>) {
    forall t | t in s :: NeedsOneOf(deps, s, t)
  }

  lemma NeededInside(deps: Dependencies, s: set<TaskId>, t: TaskId) returns (d: TaskId)
    requires NeedsOneOf(deps, s, t)
    ensures t in deps && d in deps[t] && d in s
  {
    d :| d in deps[t] && d in s;
  }

  lemma BlockedIsNotReady(deps: Dependencies, s: set<TaskId>, done: set<TaskId>, t: TaskId)
    requires Blocked(deps, s) && s !! done && t in Ready(deps, done)
    ensures t !in s
  {
    hide NeedsOneOf;
    if t in s {
      var d := NeededInside(deps, s, t);
    }
  }

  lemma {:induction false} BlockedIsNeverPlaced(deps: Dependencies, s: set<TaskId>, done: set<TaskId>)
    requires Blocked(deps, s) && s !! done
    ensures s !! Elements(OrderFrom(deps, done))
    decreases deps.Keys - done
  {
    hide NeedsOneOf;
    if Ready(deps, done) != {} {
      var next := First(Ready(deps, done));
      assert next in deps.Keys - done;
      BlockedIsNotReady(deps, s, done, next);
      BlockedIsNeverPlaced(deps, s, done + {next});
      var rest := OrderFrom(deps, done + {next});
      forall t | t in Elements(OrderFrom(deps, done)) ensures t !in s {
        assert t == next || t in Elements(rest);
      }
    }
  }

  /** The diagnosis is the largest set in which every task has a dependency inside the set. */
  lemma StuckIsLargestBlocked(deps: Dependencies)
    requires Closed(deps)
    ensures Blocked(deps, Stuck(deps))
    ensures forall s | Blocked(deps, s) :: s <= Stuck(deps)
  {
    var placed := Elements(Order(deps));
    OrderPlays(deps, {});
    assert {} + placed == placed;
    forall t | t in Stuck(deps) ensures NeedsOneOf(deps, Stuck(deps), t) {
      assert t !in Ready(deps, placed);
      var d :| d in deps[t] && d !in placed;
      assert d in deps && d in Stuck(deps);
    }
    forall s | Blocked(deps, s) ensures s <= Stuck(deps) {
      BlockedIsNeverPlaced(deps, s, {});
    }
  }

  /** A path that follows dependencies. */
  ghost predicate Walk(deps: Dependencies, w: seq<TaskId>) {
    w != [] && forall i | 0 <= i < |w| - 1 :: w[i] in deps && w[i + 1] in deps[w[i]]
  }

  ghost predicate Cycle(deps: Dependencies, w: seq<TaskId>) {
    Walk(deps, w) && |w| > 1 && w[0] == w[|w| - 1]
  }

  /** A path that comes back to a task it has passed, at position `i`. */
  ghost predicate Lasso(deps: Dependencies, w: seq<TaskId>, i: nat) {
    Walk(deps, w) && i < |w| - 1 && w[i] == w[|w| - 1]
  }

  /** The task is on a cycle or depends, however indirectly, on a task that is. */
  ghost predicate ReachesCycle(deps: Dependencies, t: TaskId) {
    exists w, i :: Lasso(deps, w, i) && w[0] == t
  }

  lemma LassoIsBlocked(deps: Dependencies, w: seq<TaskId>, i: nat)
    requires Lasso(deps, w, i)
    ensures Blocked(deps, Elements(w))
  {
    forall t | t in Elements(w) ensures NeedsOneOf(deps, Elements(w), t) {
      var k :| 0 <= k < |w| && w[k] == t;
      var next := if k < |w| - 1 then k + 1 else i + 1;
      assert w[next] in Elements(w) && w[next] in deps[t];
    }
  }

  lemma {:induction false} WalkInside(deps: Dependencies, s: set<TaskId>, t: TaskId, n: nat) returns (w: seq<TaskId>)
    requires Blocked(deps, s) && t in s
    ensures Walk(deps, w) && |w| == n + 1 && w[0] == t
    ensures forall k | 0 <= k < |w| :: w[k] in s
    decreases n
  {
    hide NeedsOneOf;
    if n == 0 {
      w := [t];
    } else {
      var d := NeededInside(deps, s, t);
      var rest := WalkInside(deps, s, d, n - 1);
      w := [t] + rest;
    }
  }

  lemma {:induction false} Pigeonhole(w: seq<TaskId>, s: set<TaskId>) returns (i: nat, j: nat)
    requires forall k | 0 <= k < |w| :: w[k] in s
    requires |w| > |s|
    ensures i < j < |w| && w[i] == w[j]
    decreases |w|
  {
    var last := |w| - 1;
    if k :| 0 <= k < last && w[k] == w[last] {
      i, j := k, last;
    } else {
      var init, others := w[..last], s - {w[last]};
      assert s == others + {w[last]};
      i, j := Pigeonhole(init, others);
    }
  }

  /** Exactly the tasks on a cycle or downstream of one are diagnosed. */
  lemma StuckExactlyBehindCycles(deps: Dependencies, t: TaskId)
    requires Closed(deps)
    ensures t in Stuck(deps) <==> ReachesCycle(deps, t)
  {
    hide Blocked, Stuck, NeedsOneOf;
    StuckIsLargestBlocked(deps);
    var stuck := Stuck(deps);
    if t in stuck {
      var w := WalkInside(deps, stuck, t, |stuck|);
      var i, j := Pigeonhole(w, stuck);
      assert Lasso(deps, w[..j + 1], i);
    }
    if ReachesCycle(deps, t) {
      var w, i :| Lasso(deps, w, i) && w[0] == t;
      LassoIsBlocked(deps, w, i);
      assert t in Elements(w);
    }
  }

  /** There is an order if and only if no path of dependencies comes back to where it started. */
  lemma StuckExactlyOnCycle(deps: Dependencies)
    requires Closed(deps)
    ensures Stuck(deps) != {} <==> exists w :: Cycle(deps, w)
  {
    if Stuck(deps) != {} {
      var t :| t in Stuck(deps);
      StuckExactlyBehindCycles(deps, t);
      var w, i :| Lasso(deps, w, i) && w[0] == t;
      assert Cycle(deps, w[i..]);
    }
    if w :| Cycle(deps, w) {
      assert Lasso(deps, w, 0);
      StuckExactlyBehindCycles(deps, w[0]);
    }
  }

  lemma FaultlessIsClosed(tasks: map<TaskId, TaskDefinition>)
    requires FaultyTasks(tasks) == {}
    ensures Closed(Needs(tasks))
  {
    forall t | t in tasks ensures Needs(tasks)[t] <= tasks.Keys {
      assert t !in FaultyTasks(tasks);
      forall d | d in tasks[t].dependencies ensures d in tasks {
        assert d !in Faults(tasks, t);
      }
    }
  }

  /** A graph is built exactly when every dependency exists and nothing depends on itself, even indirectly. */
  lemma AcceptedExactly(tasks: map<TaskId, TaskDefinition>)
    ensures GraphOf(tasks).Ok? <==> Closed(Needs(tasks)) && !exists w :: Cycle(Needs(tasks), w)
    ensures GraphOf(tasks).Ok? ==> GraphOf(tasks).value.tasks == tasks
    ensures GraphOf(tasks).Ok? ==> IsSchedule(Needs(tasks), GraphOf(tasks).value.order)
    ensures GraphOf(tasks).Ok? ==> forall k | 0 <= k < |GraphOf(tasks).value.order| ::
      var t := GraphOf(tasks).value.order[k];
      t in tasks && forall d | d in tasks[t].dependencies :: d in GraphOf(tasks).value.order[..k]
  {
    var deps := Needs(tasks);
    if FaultyTasks(tasks) == {} {
      FaultlessIsClosed(tasks);
      StuckExactlyOnCycle(deps);
      if Stuck(deps) == {} {
        OrderIsSchedule(deps);
      }
    } else {
      var t :| t in FaultyTasks(tasks);
      var d :| d in Faults(tasks, t);
      assert d in deps[t];
      if d == t {
        assert Cycle(deps, [t, t]);
      }
    }
  }

  /** This dependency names a task that is not there, or the task itself. */
  predicate IsFault(tasks: map<TaskId, TaskDefinition>, t: TaskId, d: TaskId) {
    t in tasks && d in tasks[t].dependencies && (d == t || d !in tasks)
  }

  /** No smaller task has a fault, and this one has none at a smaller dependency. */
  ghost predicate FirstFault(tasks: map<TaskId, TaskDefinition>, t: TaskId, d: TaskId) {
    && IsFault(tasks, t, d)
    && forall u, e | IsFault(tasks, u, e) :: t.bits < u.bits || (t.bits == u.bits && d.bits <= e.bits)
  }

  /** The fault at which a faulty graph is refused comes before every other. */
  lemma FindsFirstFault(tasks: map<TaskId, TaskDefinition>)
    requires FaultyTasks(tasks) != {}
    ensures var t := First(FaultyTasks(tasks));
            t in FaultyTasks(tasks) && FirstFault(tasks, t, First(Faults(tasks, t)))
  {
    var t := First(FaultyTasks(tasks));
    var d := First(Faults(tasks, t));
    forall u, e | IsFault(tasks, u, e) ensures t.bits < u.bits || (t.bits == u.bits && d.bits <= e.bits) {
      assert e in Faults(tasks, u);
      assert u in FaultyTasks(tasks);
      assert u == t || t.Before(u);
      assert u == t ==> e == d || d.Before(e);
    }
  }

  lemma FirstFaultIsUnique(tasks: map<TaskId, TaskDefinition>, t: TaskId, d: TaskId, u: TaskId, e: TaskId)
    requires FirstFault(tasks, t, d) && FirstFault(tasks, u, e)
    ensures t == u && d == e
  {
    assert t == TaskId(t.bits) && u == TaskId(u.bits) && d == TaskId(d.bits) && e == TaskId(e.bits);
  }

  /**
   * A dependency that names its own task or none is reported, with the task and the dependency in their places:
   * the smallest task that has one, and its smallest.
   */
  lemma RefusalNamesTheFault(tasks: map<TaskId, TaskDefinition>, t: TaskId, d: TaskId)
    ensures GraphOf(tasks) == Err(SelfDependency(t)) <==> FirstFault(tasks, t, t)
    ensures GraphOf(tasks) == Err(UnknownDependency(t, d)) <==> FirstFault(tasks, t, d) && d != t
  {
    if FaultyTasks(tasks) != {} {
      FindsFirstFault(tasks);
      var u := First(FaultyTasks(tasks));
      var e := First(Faults(tasks, u));
      if FirstFault(tasks, t, t) {
        FirstFaultIsUnique(tasks, t, t, u, e);
      }
      if FirstFault(tasks, t, d) {
        FirstFaultIsUnique(tasks, t, d, u, e);
      }
    } else if t in tasks {
      assert t !in FaultyTasks(tasks);
      assert t !in Faults(tasks, t) && d !in Faults(tasks, t);
    }
  }

  /** The task at this position repeats an earlier one. */
  ghost predicate Repeats(tasks: seq<TaskDefinition>, i: nat) {
    i < |tasks| && exists j | 0 <= j < i :: tasks[j].id == tasks[i].id
  }

  lemma {:induction false} FindsFirstRepeat(tasks: seq<TaskDefinition>, i: nat, id: TaskId)
    requires i <= |tasks|
    ensures RepeatFrom(tasks, i) == Some(id) <==>
      exists k | i <= k < |tasks| ::
        Repeats(tasks, k) && tasks[k].id == id && forall j: nat | i <= j < k :: !Repeats(tasks, j)
    decreases |tasks| - i
  {
    if i < |tasks| {
      FindsFirstRepeat(tasks, i + 1, id);
      if Repeats(tasks, i) {
        assert RepeatFrom(tasks, i) == Some(tasks[i].id);
      }
    }
  }

  /** A repeated identifier is reported before anything else, and it is the first one to come back. */
  lemma RefusalNamesTheRepeat(tasks: seq<TaskDefinition>, id: TaskId)
    ensures GraphOfAll(tasks) == Err(DuplicateTask(id)) <==>
      exists k: nat | k < |tasks| ::
        Repeats(tasks, k) && tasks[k].id == id && forall j: nat | j < k :: !Repeats(tasks, j)
  {
    FindsFirstRepeat(tasks, 0, id);
  }

  /** The diagnosis of a cycle: in ascending order, what is on or behind a cycle, and nothing else. */
  lemma CycleDiagnosis(tasks: map<TaskId, TaskDefinition>, t: TaskId)
    requires GraphOf(tasks).Err? && GraphOf(tasks).error.DependencyCycle?
    ensures Increasing(GraphOf(tasks).error.tasks)
    ensures t in GraphOf(tasks).error.tasks <==> ReachesCycle(Needs(tasks), t)
    ensures exists w :: Cycle(Needs(tasks), w)
  {
    var deps := Needs(tasks);
    FaultlessIsClosed(tasks);
    StuckExactlyBehindCycles(deps, t);
    StuckExactlyOnCycle(deps);
    InOrderIncreases(Stuck(deps));
    InOrderHolds(Stuck(deps), t);
  }

  function Identifiers(tasks: seq<TaskDefinition>): set<TaskId> {
    set t | t in tasks :: t.id
  }

  lemma IdentifiersOfLast(tasks: seq<TaskDefinition>, n: nat)
    requires |tasks| == n + 1
    ensures Identifiers(tasks) == Identifiers(tasks[..n]) + {tasks[n].id}
    ensures tasks[n].id in Identifiers(tasks[..n]) <==> exists i | 0 <= i < n :: tasks[i].id == tasks[n].id
  {
    assert tasks == tasks[..n] + [tasks[n]];
    if t :| t in tasks[..n] && t.id == tasks[n].id {
      var i :| 0 <= i < n && tasks[..n][i] == t;
      assert tasks[i].id == tasks[n].id;
    }
    forall i | 0 <= i < n ensures tasks[i] in tasks[..n] {
      assert tasks[..n][i] == tasks[i];
    }
  }

  lemma {:induction false} DistinctByCount(tasks: seq<TaskDefinition>)
    ensures |Identifiers(tasks)| <= |tasks|
    ensures Distinct(tasks) <==> |Identifiers(tasks)| == |tasks|
  {
    hide Identifiers;
    if tasks == [] {
      NoIdentifiers();
    } else {
      var n := |tasks| - 1;
      DistinctByCount(tasks[..n]);
      IdentifiersOfLast(tasks, n);
      assert forall i | 0 <= i < n :: tasks[..n][i] == tasks[i];
      if tasks[n].id in Identifiers(tasks[..n]) {
        assert Identifiers(tasks) == Identifiers(tasks[..n]);
      } else {
        assert Distinct(tasks) <==> Distinct(tasks[..n]);
      }
    }
  }

  lemma NoIdentifiers()
    ensures Identifiers([]) == {}
  {
  }

  lemma {:induction false} ByIdHolds(tasks: seq<TaskDefinition>, t: TaskDefinition)
    requires Distinct(tasks)
    ensures t in tasks <==> t.id in ById(tasks) && ById(tasks)[t.id] == t
  {
    if tasks != [] {
      var n := |tasks| - 1;
      assert tasks == tasks[..n] + [tasks[n]];
      ByIdHolds(tasks[..n], t);
      if t in tasks[..n] {
        var i :| 0 <= i < n && tasks[..n][i] == t;
        assert tasks[i].id != tasks[n].id;
      }
    }
  }

  lemma {:induction false} ByIdKeys(tasks: seq<TaskDefinition>, id: TaskId)
    ensures id in ById(tasks) ==> ById(tasks)[id].id == id
  {
    if tasks != [] {
      ByIdKeys(tasks[..|tasks| - 1], id);
    }
  }

  lemma {:induction false} NoRepeatExactly(tasks: seq<TaskDefinition>, i: nat)
    requires i <= |tasks|
    ensures RepeatFrom(tasks, i).None? <==> forall j, k | 0 <= j < k < |tasks| && i <= k :: tasks[j].id != tasks[k].id
    decreases |tasks| - i
  {
    if i < |tasks| && RepeatFrom(tasks, i) == RepeatFrom(tasks, i + 1) {
      NoRepeatExactly(tasks, i + 1);
    }
  }

  predicate Refused(r: Result<TaskGraph, GraphError>) {
    r.Err? && r.error.DuplicateTask?
  }

  /** The graph, its order and its diagnosis do not depend on the order the tasks come in. */
  lemma InputOrderIsIrrelevant(a: seq<TaskDefinition>, b: seq<TaskDefinition>)
    requires multiset(a) == multiset(b)
    ensures GraphOfAll(a) == GraphOfAll(b)
            || (Refused(GraphOfAll(a)) && Refused(GraphOfAll(b)) && !Distinct(a) && !Distinct(b))
  {
    assert |a| == |multiset(a)| == |multiset(b)| == |b|;
    forall t ensures t in a <==> t in b {
      assert t in a <==> t in multiset(a);
    }
    assert Identifiers(a) == Identifiers(b);
    DistinctByCount(a);
    DistinctByCount(b);
    NoRepeatExactly(a, 0);
    NoRepeatExactly(b, 0);
    if Distinct(a) {
      SameIndex(a, b);
    }
  }

  lemma SameIndex(a: seq<TaskDefinition>, b: seq<TaskDefinition>)
    requires Distinct(a) && Distinct(b)
    requires forall t :: t in a <==> t in b
    ensures ById(a) == ById(b)
  {
    forall id ensures id in ById(a) <==> id in ById(b)
      ensures id in ById(a) ==> ById(a)[id] == ById(b)[id]
    {
      ByIdKeys(a, id);
      ByIdKeys(b, id);
      if id in ById(a) {
        ByIdHolds(a, ById(a)[id]);
        ByIdHolds(b, ById(a)[id]);
      } else if id in ById(b) {
        ByIdHolds(b, ById(b)[id]);
        ByIdHolds(a, ById(b)[id]);
        assert false;
      }
    }
  }
}
