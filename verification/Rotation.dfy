/** Handing out due work: one unit per repository per round, oldest first, within a global limit. */
module Rotation {
  import opened Wrappers
  import opened TaskLifecycle

  datatype DueUnit = DueUnit(unit: nat, repository: nat, package: nat, selectedAt: int) {
    predicate Before(other: DueUnit) {
      selectedAt < other.selectedAt || (selectedAt == other.selectedAt && unit < other.unit)
    }
  }

  /** An overdue slot with what decides whether it may be claimed; `None` stands for a missing row. */
  datatype OverdueSlot = OverdueSlot(
    unit: nat, package: nat, selectedAt: int, liveAttempt: bool, tasks: Option<seq<Option<TaskStatus>>>)
  {
    /** Nobody publishes the package and every task of the unit still waits at its time. */
    predicate Claimable() {
      !liveAttempt && tasks.Some? && forall k | 0 <= k < |tasks.value| :: tasks.value[k] == Some(Scheduled)
    }
  }

  datatype RepositoryWork = RepositoryWork(id: nat, paused: bool, ready: bool, overdue: seq<OverdueSlot>)

  function Insert(unit: DueUnit, sorted: seq<DueUnit>): seq<DueUnit> {
    if sorted == [] || unit.Before(sorted[0]) then [unit] + sorted else [sorted[0]] + Insert(unit, sorted[1..])
  }

  function Sort(units: seq<DueUnit>): seq<DueUnit> {
    if units == [] then [] else Insert(units[|units| - 1], Sort(units[..|units| - 1]))
  }

  function Claimables(repository: nat, overdue: seq<OverdueSlot>): seq<DueUnit> {
    if overdue == [] then []
    else
      var last := overdue[|overdue| - 1];
      Claimables(repository, overdue[..|overdue| - 1])
      + if last.Claimable() then [DueUnit(last.unit, repository, last.package, last.selectedAt)] else []
  }

  function Due(work: RepositoryWork): seq<DueUnit> {
    if work.paused || !work.ready then [] else Sort(Claimables(work.id, work.overdue))
  }

  /** The queues of the repositories that have anything to hand out. */
  function Queues(repositories: seq<RepositoryWork>): seq<seq<DueUnit>> {
    if repositories == [] then []
    else
      var last := Due(repositories[|repositories| - 1]);
      Queues(repositories[..|repositories| - 1]) + if last == [] then [] else [last]
  }

  function Total(queues: seq<seq<DueUnit>>): nat {
    if queues == [] then 0 else Total(queues[..|queues| - 1]) + |queues[|queues| - 1]|
  }

  function Cell(queue: seq<DueUnit>, round: nat): seq<DueUnit> {
    if round < |queue| then [queue[round]] else []
  }

  /** What the first `n` queues give in one round. */
  function Row(queues: seq<seq<DueUnit>>, round: nat, n: nat): seq<DueUnit>
    requires n <= |queues|
  {
    if n == 0 then [] else Row(queues, round, n - 1) + Cell(queues[n - 1], round)
  }

  /** Everything handed out by `round` whole rounds and the first `n` queues of the next. */
  function Handed(queues: seq<seq<DueUnit>>, round: nat, n: nat): seq<DueUnit>
    requires n <= |queues|
  {
    (if round == 0 then [] else Handed(queues, round - 1, |queues|)) + Row(queues, round, n)
  }

  function Min(a: nat, b: nat): nat {
    if a <= b then a else b
  }

  /** How many units a queue has given at that point. */
  function Share(queues: seq<seq<DueUnit>>, round: nat, n: nat, j: nat): nat
    requires j < |queues|
  {
    Min(|queues[j]|, if j < n then round + 1 else round)
  }

  method Claimed(work: RepositoryWork) returns (due: seq<DueUnit>)
    ensures due == Sort(Claimables(work.id, work.overdue))
  {
    due := [];
    for i := 0 to |work.overdue|
      invariant due == Claimables(work.id, work.overdue[..i])
    {
      var slot := work.overdue[i];
      assert work.overdue[..i + 1][..i] == work.overdue[..i];
      if !slot.Claimable() {
        continue;
      }
      due := due + [DueUnit(slot.unit, work.id, slot.package, slot.selectedAt)];
    }
    assert work.overdue[..|work.overdue|] == work.overdue;
    due := Sort(due);
  }

  method DueUnits(repositories: seq<RepositoryWork>, limit: nat) returns (claimed: seq<DueUnit>)
    ensures |claimed| == Min(limit, Total(Queues(repositories))) && |claimed| <= limit
    ensures |claimed| < limit ==>
      forall r, unit | 0 <= r < |repositories| && unit in Due(repositories[r]) :: unit in claimed
    ensures exists round: nat, n: nat | n <= |Queues(repositories)| :: claimed == Handed(Queues(repositories), round, n)
    ensures DistinctRepositories(repositories) ==> Fair(repositories, claimed)
    ensures DistinctUnits(repositories) ==> NoneTwice(claimed)
  {
    hide Fair, NoneTwice, Handed, Queues, DistinctRepositories, DistinctUnits;
    if limit == 0 {
      NextRound(Queues(repositories), 0);
      ClaimedRightly(repositories, 0, 0);
      return [];
    }
    QueuesOfNone();
    var queues: seq<seq<DueUnit>> := [];
    for i := 0 to |repositories|
      invariant queues == Queues(repositories[..i])
    {
      NextRepository(repositories, i);
      if repositories[i].paused || !repositories[i].ready {
        continue;
      }
      var due := Claimed(repositories[i]);
      if due != [] {
        queues := queues + [due];
      }
    }
    assert repositories[..|repositories|] == repositories;
    claimed := Rotate(queues, limit);
    ghost var round: nat, n: nat :| n <= |queues| && claimed == Handed(queues, round, n);
    ClaimedRightly(repositories, round, n);
    if |claimed| < limit {
      NobodyLeftOut(repositories, claimed);
    }
  }

  lemma NobodyLeftOut(repositories: seq<RepositoryWork>, claimed: seq<DueUnit>)
    requires var queues := Queues(repositories);
             forall j, k | 0 <= j < |queues| && 0 <= k < |queues[j]| :: queues[j][k] in claimed
    ensures forall r, unit | 0 <= r < |repositories| && unit in Due(repositories[r]) :: unit in claimed
  {
    hide Queues, Due;
    forall r, unit | 0 <= r < |repositories| && unit in Due(repositories[r]) ensures unit in claimed {
      QueuesExactly(repositories, Due(repositories[r]));
      var j :| 0 <= j < |Queues(repositories)| && Queues(repositories)[j] == Due(repositories[r]);
      var k :| 0 <= k < |Due(repositories[r])| && Due(repositories[r])[k] == unit;
      assert Queues(repositories)[j][k] in claimed;
    }
  }

  lemma QueuesOfNone()
    ensures Queues([]) == []
  {
  }

  lemma NextRepository(repositories: seq<RepositoryWork>, i: nat)
    requires i < |repositories|
    ensures Queues(repositories[..0]) == []
    ensures var due := Due(repositories[i]);
            Queues(repositories[..i + 1]) == Queues(repositories[..i]) + if due == [] then [] else [due]
  {
    assert repositories[..i + 1][..i] == repositories[..i];
  }

  lemma NextQueue(queues: seq<seq<DueUnit>>, round: nat, n: nat)
    requires n < |queues|
    ensures Handed(queues, round, n + 1) == Handed(queues, round, n) + Cell(queues[n], round)
  {
  }

  lemma NextRound(queues: seq<seq<DueUnit>>, round: nat)
    ensures Handed(queues, round + 1, 0) == Handed(queues, round, |queues|)
    ensures Handed(queues, 0, 0) == []
  {
  }

  /** One round over the queues, stopping when the limit is reached. */
  method TakeRound(queues: seq<seq<DueUnit>>, round: nat, before: seq<DueUnit>, limit: nat)
    returns (claimed: seq<DueUnit>, tookAny: bool, ghost n: nat)
    requires before == Handed(queues, round, 0) && |before| < limit
    ensures n <= |queues| && claimed == Handed(queues, round, n) && |before| <= |claimed| <= limit
    ensures |claimed| < limit ==> n == |queues|
    ensures tookAny <==> |claimed| > |before|
    ensures !tookAny ==> forall j | 0 <= j < |queues| :: |queues[j]| <= round
  {
    hide Handed;
    claimed, tookAny := before, false;
    var i := 0;
    while i < |queues|
      invariant i <= |queues| && claimed == Handed(queues, round, i) && |before| <= |claimed| <= limit
      invariant tookAny <==> |claimed| > |before|
      invariant !tookAny ==> forall j | 0 <= j < i :: |queues[j]| <= round
    {
      if |claimed| == limit {
        break;
      }
      NextQueue(queues, round, i);
      if round < |queues[i]| {
        claimed := claimed + [queues[i][round]];
        tookAny := true;
      }
      i := i + 1;
    }
    n := i;
  }

  method Rotate(queues: seq<seq<DueUnit>>, limit: nat) returns (claimed: seq<DueUnit>)
    ensures |claimed| == Min(limit, Total(queues)) && |claimed| <= limit
    ensures exists round: nat, n: nat | n <= |queues| :: claimed == Handed(queues, round, n)
    ensures |claimed| < limit ==> forall j, k | 0 <= j < |queues| && 0 <= k < |queues[j]| :: queues[j][k] in claimed
  {
    hide Handed, Total;
    claimed := [];
    var round := 0;
    ghost var r: nat, n: nat := 0, 0;
    NextRound(queues, 0);
    while |claimed| < limit
      invariant n <= |queues| && claimed == Handed(queues, r, n) && |claimed| <= limit
      invariant |claimed| < limit ==> claimed == Handed(queues, round, 0)
      decreases limit - |claimed|
    {
      var tookAny;
      r := round;
      claimed, tookAny, n := TakeRound(queues, round, claimed, limit);
      if !tookAny {
        AllHanded(queues, round);
        EveryoneHanded(queues, round);
        break;
      }
      NextRound(queues, round);
      round := round + 1;
    }
    HandedAtMostTotal(queues, r, n);
  }

  /** The sum of what each of the first `n` queues has given after `round` rounds. */
  function Given(queues: seq<seq<DueUnit>>, round: nat, n: nat): nat
    requires n <= |queues|
  {
    if n == 0 then 0 else Given(queues, round, n - 1) + Min(|queues[n - 1]|, round)
  }

  lemma {:induction false} RowLength(queues: seq<seq<DueUnit>>, round: nat, n: nat)
    requires n <= |queues|
    ensures |Row(queues, round, n)| == Given(queues, round + 1, n) - Given(queues, round, n)
    decreases n
  {
    if n > 0 {
      RowLength(queues, round, n - 1);
    }
  }

  lemma {:induction false} GivenNothing(queues: seq<seq<DueUnit>>, n: nat)
    requires n <= |queues|
    ensures Given(queues, 0, n) == 0
    decreases n
  {
    if n > 0 {
      GivenNothing(queues, n - 1);
    }
  }

  lemma HandedSplits(queues: seq<seq<DueUnit>>, round: nat, n: nat)
    requires n <= |queues|
    ensures round == 0 ==> Handed(queues, round, n) == Row(queues, 0, n)
    ensures round > 0 ==> Handed(queues, round, n) == Handed(queues, round - 1, |queues|) + Row(queues, round, n)
  {
  }

  lemma {:induction false} HandedLength(queues: seq<seq<DueUnit>>, round: nat, n: nat)
    requires n <= |queues|
    ensures |Handed(queues, round, n)|
            == Given(queues, round, |queues|) + Given(queues, round + 1, n) - Given(queues, round, n)
    decreases round
  {
    hide Handed, Row, Given;
    RowLength(queues, round, n);
    HandedSplits(queues, round, n);
    if round == 0 {
      GivenNothing(queues, n);
      GivenNothing(queues, |queues|);
    } else {
      HandedLength(queues, round - 1, |queues|);
    }
  }

  lemma {:induction false} GivenBounded(queues: seq<seq<DueUnit>>, round: nat, n: nat)
    requires n <= |queues|
    ensures Given(queues, round + 1, n) - Given(queues, round, n) <= Total(queues[..n]) - Given(queues, round, n)
    ensures Given(queues, round, n) <= Total(queues[..n])
    ensures (forall j | 0 <= j < n :: |queues[j]| <= round) ==> Given(queues, round, n) == Total(queues[..n])
    decreases n
  {
    if n > 0 {
      GivenBounded(queues, round, n - 1);
      assert queues[..n][..n - 1] == queues[..n - 1];
    }
  }

  lemma {:induction false} GivenGap(queues: seq<seq<DueUnit>>, round: nat, n: nat, m: nat)
    requires n <= m <= |queues|
    ensures Given(queues, round + 1, n) - Given(queues, round, n) <= Given(queues, round + 1, m) - Given(queues, round, m)
    decreases m
  {
    if n < m {
      GivenGap(queues, round, n, m - 1);
    }
  }

  lemma HandedAtMostTotal(queues: seq<seq<DueUnit>>, round: nat, n: nat)
    requires n <= |queues|
    ensures |Handed(queues, round, n)| <= Total(queues)
  {
    HandedLength(queues, round, n);
    GivenGap(queues, round, n, |queues|);
    GivenBounded(queues, round + 1, |queues|);
    assert queues[..|queues|] == queues;
  }

  lemma AllHanded(queues: seq<seq<DueUnit>>, round: nat)
    requires forall j | 0 <= j < |queues| :: |queues[j]| <= round
    ensures |Handed(queues, round, |queues|)| == Total(queues)
  {
    HandedLength(queues, round, |queues|);
    GivenBounded(queues, round + 1, |queues|);
    assert queues[..|queues|] == queues;
  }

  lemma {:induction false} RowHolds(queues: seq<seq<DueUnit>>, round: nat, n: nat, j: nat)
    requires j < n <= |queues| && round < |queues[j]|
    ensures queues[j][round] in Row(queues, round, n)
    decreases n
  {
    var before, last := Row(queues, round, n - 1), Cell(queues[n - 1], round);
    assert Row(queues, round, n) == before + last;
    if j < n - 1 {
      RowHolds(queues, round, n - 1, j);
      hide Row, Cell;
      assert queues[j][round] in before;
    } else {
      assert last == [queues[j][round]];
      hide Row, Cell;
      assert queues[j][round] in last;
    }
  }

  lemma {:induction false} EarlierHanded(queues: seq<seq<DueUnit>>, round: nat, j: nat, k: nat)
    requires j < |queues| && k < |queues[j]| && k <= round
    ensures queues[j][k] in Handed(queues, round, |queues|)
    decreases round
  {
    hide Row;
    if k == round {
      RowHolds(queues, round, |queues|, j);
    } else {
      EarlierHanded(queues, round - 1, j, k);
    }
  }

  lemma EveryoneHanded(queues: seq<seq<DueUnit>>, round: nat)
    requires forall j | 0 <= j < |queues| :: |queues[j]| <= round
    ensures forall j, k | 0 <= j < |queues| && 0 <= k < |queues[j]| :: queues[j][k] in Handed(queues, round, |queues|)
  {
    forall j, k | 0 <= j < |queues| && 0 <= k < |queues[j]| ensures queues[j][k] in Handed(queues, round, |queues|) {
      EarlierHanded(queues, round, j, k);
    }
  }

  /** Oldest first, and among units of one time the one with the smaller identifier first. */
  ghost predicate Sorted(units: seq<DueUnit>) {
    forall i, j | 0 <= i < j < |units| ::
      units[i].selectedAt < units[j].selectedAt
      || (units[i].selectedAt == units[j].selectedAt && units[i].unit <= units[j].unit)
  }

  lemma {:induction false} InsertHolds(unit: DueUnit, sorted: seq<DueUnit>)
    ensures multiset(Insert(unit, sorted)) == multiset(sorted) + multiset{unit}
    decreases |sorted|
  {
    if sorted != [] && !unit.Before(sorted[0]) {
      assert sorted == [sorted[0]] + sorted[1..];
      InsertHolds(unit, sorted[1..]);
    }
  }

  lemma {:induction false} InsertKeeps(unit: DueUnit, sorted: seq<DueUnit>)
    requires Sorted(sorted)
    ensures Sorted(Insert(unit, sorted))
    decreases |sorted|
  {
    if sorted != [] && !unit.Before(sorted[0]) {
      InsertKeeps(unit, sorted[1..]);
      InsertHolds(unit, sorted[1..]);
      var rest := Insert(unit, sorted[1..]);
      forall k | 0 <= k < |rest| ensures !rest[k].Before(sorted[0]) {
        assert rest[k] in multiset(rest);
        assert rest[k] == unit || rest[k] in sorted[1..];
      }
    }
  }

  /** A repository's queue holds its claimable units, each as often as it is overdue, oldest first. */
  lemma {:induction false} SortIsOldestFirst(units: seq<DueUnit>)
    ensures Sorted(Sort(units)) && multiset(Sort(units)) == multiset(units)
  {
    if units != [] {
      var n := |units| - 1;
      SortIsOldestFirst(units[..n]);
      InsertKeeps(units[n], Sort(units[..n]));
      InsertHolds(units[n], Sort(units[..n]));
      assert units == units[..n] + [units[n]];
    }
  }

  /** This slot gives this unit, and nobody publishes its package, its unit exists and each of its tasks waits at its time. */
  ghost predicate Offers(slot: OverdueSlot, repository: nat, unit: DueUnit) {
    && !slot.liveAttempt && slot.tasks.Some?
    && (forall i | 0 <= i < |slot.tasks.value| :: slot.tasks.value[i].Some? && slot.tasks.value[i].value.Scheduled?)
    && unit.unit == slot.unit && unit.package == slot.package && unit.selectedAt == slot.selectedAt
    && unit.repository == repository
  }

  lemma ClaimableOffers(slot: OverdueSlot, repository: nat, unit: DueUnit)
    ensures Offers(slot, repository, unit) <==>
      slot.Claimable() && unit == DueUnit(slot.unit, repository, slot.package, slot.selectedAt)
  {
  }

  /** What is offered is exactly the overdue work nobody owns. */
  lemma {:induction false} OfferedExactly(repository: nat, overdue: seq<OverdueSlot>, unit: DueUnit)
    ensures unit in Claimables(repository, overdue) <==>
      exists k | 0 <= k < |overdue| :: Offers(overdue[k], repository, unit)
  {
    hide Offers;
    if overdue != [] {
      var n := |overdue| - 1;
      OfferedExactly(repository, overdue[..n], unit);
      ClaimableOffers(overdue[n], repository, unit);
      assert forall k | 0 <= k < n :: overdue[..n][k] == overdue[k];
      if k :| 0 <= k < |overdue| && Offers(overdue[k], repository, unit) && k < n {
        assert Offers(overdue[..n][k], repository, unit);
      }
    }
  }

  function Of(units: seq<DueUnit>, repository: nat): seq<DueUnit> {
    if units == [] then []
    else
      var last := units[|units| - 1];
      Of(units[..|units| - 1], repository) + if last.repository == repository then [last] else []
  }

  /** Each queue belongs to one repository of its own. */
  ghost predicate Separate(queues: seq<seq<DueUnit>>, ids: seq<nat>) {
    && |ids| == |queues|
    && (forall j, k | 0 <= j < |queues| && 0 <= k < |queues[j]| :: queues[j][k].repository == ids[j])
    && forall j, k | 0 <= j < k < |ids| :: ids[j] != ids[k]
  }

  lemma {:induction false} OfAppend(a: seq<DueUnit>, b: seq<DueUnit>, repository: nat)
    ensures Of(a + b, repository) == Of(a, repository) + Of(b, repository)
    decreases |b|
  {
    if b == [] {
      assert a + b == a;
    } else {
      var n := |b| - 1;
      assert (a + b)[..|a| + n] == a + b[..n];
      OfAppend(a, b[..n], repository);
    }
  }

  lemma OfCell(queues: seq<seq<DueUnit>>, ids: seq<nat>, round: nat, i: nat, j: nat)
    requires Separate(queues, ids) && i < |queues| && j < |queues|
    ensures Of(Cell(queues[i], round), ids[j]) == if i == j then Cell(queues[j], round) else []
  {
    if round < |queues[i]| {
      assert Cell(queues[i], round) == [queues[i][round]];
      assert [queues[i][round]][..0] == [];
    }
  }

  lemma {:induction false} OfRow(queues: seq<seq<DueUnit>>, ids: seq<nat>, round: nat, n: nat, j: nat)
    requires Separate(queues, ids) && n <= |queues| && j < |queues|
    ensures Of(Row(queues, round, n), ids[j]) == if j < n then Cell(queues[j], round) else []
    decreases n
  {
    hide Separate, Cell;
    SeparateLengths(queues, ids);
    if n > 0 {
      hide Of;
      OfRow(queues, ids, round, n - 1, j);
      OfAppend(Row(queues, round, n - 1), Cell(queues[n - 1], round), ids[j]);
      OfCell(queues, ids, round, n - 1, j);
    }
  }

  lemma PrefixGrows(queue: seq<DueUnit>, round: nat)
    ensures queue[..Min(|queue|, round)] + Cell(queue, round) == queue[..Min(|queue|, round + 1)]
  {
  }

  /** Each repository's share of what is handed out is a prefix of its queue. */
  lemma {:induction false} ShareIsPrefix(queues: seq<seq<DueUnit>>, ids: seq<nat>, round: nat, n: nat, j: nat)
    requires Separate(queues, ids) && n <= |queues| && j < |queues|
    ensures Of(Handed(queues, round, n), ids[j]) == queues[j][..Share(queues, round, n, j)]
    decreases round
  {
    hide Handed, Of, Separate, Row;
    SeparateLengths(queues, ids);
    OfRow(queues, ids, round, n, j);
    HandedSplits(queues, round, n);
    PrefixGrows(queues[j], round);
    if round > 0 {
      ShareIsPrefix(queues, ids, round - 1, |queues|, j);
      OfAppend(Handed(queues, round - 1, |queues|), Row(queues, round, n), ids[j]);
    }
  }

  /** No two places in the queues hold the same unit. */
  ghost predicate UnitsDistinct(queues: seq<seq<DueUnit>>) {
    forall i, a, j, b | 0 <= i < |queues| && 0 <= a < |queues[i]| && 0 <= j < |queues| && 0 <= b < |queues[j]|
                        && queues[i][a].unit == queues[j][b].unit :: i == j && a == b
  }

  ghost predicate CameFrom(queues: seq<seq<DueUnit>>, round: nat, n: nat, unit: DueUnit) {
    exists i, a | 0 <= i < |queues| && 0 <= a < |queues[i]| ::
      queues[i][a] == unit && (a < round || (a == round && i < n))
  }

  lemma {:induction false} HandedCameFrom(queues: seq<seq<DueUnit>>, round: nat, n: nat, unit: DueUnit)
    requires n <= |queues| && unit in Handed(queues, round, n)
    ensures CameFrom(queues, round, n, unit)
    decreases round, n
  {
    hide Handed;
    NextRound(queues, 0);
    if n > 0 {
      NextQueue(queues, round, n - 1);
      if unit in Handed(queues, round, n - 1) {
        HandedCameFrom(queues, round, n - 1, unit);
      } else {
        assert unit == queues[n - 1][round];
      }
    } else if round > 0 {
      NextRound(queues, round - 1);
      HandedCameFrom(queues, round - 1, |queues|, unit);
    }
  }

  /** No unit is handed out twice. */
  lemma {:induction false} HandedOnce(queues: seq<seq<DueUnit>>, round: nat, n: nat)
    requires n <= |queues| && UnitsDistinct(queues)
    ensures forall i, j | 0 <= i < j < |Handed(queues, round, n)| ::
      Handed(queues, round, n)[i].unit != Handed(queues, round, n)[j].unit
    decreases round, n
  {
    hide Handed;
    if n > 0 {
      HandedOnce(queues, round, n - 1);
      NextQueue(queues, round, n - 1);
      var before := Handed(queues, round, n - 1);
      if round < |queues[n - 1]| {
        forall i | 0 <= i < |before| ensures before[i].unit != queues[n - 1][round].unit {
          HandedCameFrom(queues, round, n - 1, before[i]);
        }
      }
    } else if round > 0 {
      NextRound(queues, round - 1);
      HandedOnce(queues, round - 1, |queues|);
    } else {
      NextRound(queues, 0);
    }
  }

  ghost predicate DistinctRepositories(repositories: seq<RepositoryWork>) {
    forall i, j | 0 <= i < j < |repositories| :: repositories[i].id != repositories[j].id
  }

  /** A repository that is paused or waiting out a failing remote has no queue; every other has its own. */
  lemma {:induction false} QueuesAreSeparate(repositories: seq<RepositoryWork>) returns (ids: seq<nat>)
    requires DistinctRepositories(repositories)
    ensures Separate(Queues(repositories), ids)
    ensures forall id | id in ids :: exists k | 0 <= k < |repositories| ::
      repositories[k].id == id && !repositories[k].paused && repositories[k].ready
  {
    ids := [];
    if repositories != [] {
      var n := |repositories| - 1;
      var work := repositories[n];
      ids := QueuesAreSeparate(repositories[..n]);
      assert forall k | 0 <= k < n :: repositories[..n][k] == repositories[k];
      assert work.id !in ids;
      if Due(work) != [] {
        DueIsOwn(work);
        ids := ids + [work.id];
      }
    }
  }

  lemma {:induction false} ClaimablesAreOwn(repository: nat, overdue: seq<OverdueSlot>)
    ensures forall k | 0 <= k < |Claimables(repository, overdue)| :: Claimables(repository, overdue)[k].repository == repository
  {
    if overdue != [] {
      ClaimablesAreOwn(repository, overdue[..|overdue| - 1]);
    }
  }

  lemma DueIsOwn(work: RepositoryWork)
    ensures forall k | 0 <= k < |Due(work)| :: Due(work)[k].repository == work.id
  {
    var all := Claimables(work.id, work.overdue);
    ClaimablesAreOwn(work.id, work.overdue);
    SortIsOldestFirst(all);
    forall k | 0 <= k < |Due(work)| ensures Due(work)[k].repository == work.id {
      assert Sort(all)[k] in multiset(Sort(all));
      assert Sort(all)[k] in all;
    }
  }

  /** Every repository's part is the oldest of its work, and nobody is two ahead of one that still waits. */
  ghost predicate FairlyShared(queues: seq<seq<DueUnit>>, ids: seq<nat>, shares: seq<nat>, claimed: seq<DueUnit>) {
    && |ids| == |shares| == |queues|
    && (forall j | 0 <= j < |queues| ::
          shares[j] <= |queues[j]| && Of(claimed, ids[j]) == queues[j][..shares[j]])
    && forall j, k | 0 <= j < |queues| && 0 <= k < |queues| && shares[j] > shares[k] + 1 :: shares[k] == |queues[k]|
  }

  /** A repository's queue: what it may offer if it may start work at all, oldest first. */
  lemma DueExactly(work: RepositoryWork, unit: DueUnit)
    ensures Sorted(Due(work))
    ensures unit in Due(work) <==> !work.paused && work.ready && exists k | 0 <= k < |work.overdue| ::
      Offers(work.overdue[k], work.id, unit)
  {
    var all := Claimables(work.id, work.overdue);
    SortIsOldestFirst(all);
    OfferedExactly(work.id, work.overdue, unit);
    assert unit in Sort(all) <==> unit in multiset(Sort(all));
  }

  /** The queues are those of exactly the repositories that have something to offer. */
  lemma {:induction false} QueuesExactly(repositories: seq<RepositoryWork>, queue: seq<DueUnit>)
    ensures queue in Queues(repositories) <==>
      queue != [] && exists k | 0 <= k < |repositories| :: Due(repositories[k]) == queue
  {
    hide Due;
    if repositories != [] {
      var n := |repositories| - 1;
      QueuesExactly(repositories[..n], queue);
      assert forall k | 0 <= k < n :: repositories[..n][k] == repositories[k];
      if k :| 0 <= k < |repositories| && Due(repositories[k]) == queue && k < n {
        assert Due(repositories[..n][k]) == queue;
      }
    }
  }

  /** What one pass hands out is fairly shared among the repositories that may start work. */
  lemma PassIsFair(repositories: seq<RepositoryWork>, round: nat, n: nat) returns (ids: seq<nat>, shares: seq<nat>)
    requires DistinctRepositories(repositories) && n <= |Queues(repositories)|
    ensures Separate(Queues(repositories), ids)
    ensures FairlyShared(Queues(repositories), ids, shares, Handed(Queues(repositories), round, n))
  {
    hide Handed, Queues, Of, Separate;
    var queues := Queues(repositories);
    ids := QueuesAreSeparate(repositories);
    SeparateLengths(queues, ids);
    shares := seq(|queues|, j requires 0 <= j < |queues| => Share(queues, round, n, j));
    forall j | 0 <= j < |queues| ensures Of(Handed(queues, round, n), ids[j]) == queues[j][..shares[j]] {
      ShareIsPrefix(queues, ids, round, n, j);
    }
  }

  lemma SeparateLengths(queues: seq<seq<DueUnit>>, ids: seq<nat>)
    requires Separate(queues, ids)
    ensures |ids| == |queues|
  {
  }

  // ------------------------------------------- what a pass claims, as a whole

  /** What a pass claimed is fairly shared among the repositories that may start work. */
  ghost predicate Fair(repositories: seq<RepositoryWork>, claimed: seq<DueUnit>) {
    exists ids, shares ::
      Separate(Queues(repositories), ids) && FairlyShared(Queues(repositories), ids, shares, claimed)
  }

  ghost predicate NoneTwice(units: seq<DueUnit>) {
    forall i, j | 0 <= i < j < |units| :: units[i].unit != units[j].unit
  }

  /** Every unit has at most one overdue slot, in all repositories taken together. */
  ghost predicate DistinctUnits(repositories: seq<RepositoryWork>) {
    forall i, a, j, b | 0 <= i < |repositories| && 0 <= a < |repositories[i].overdue|
                        && 0 <= j < |repositories| && 0 <= b < |repositories[j].overdue|
                        && repositories[i].overdue[a].unit == repositories[j].overdue[b].unit :: i == j && a == b
  }

  lemma {:induction false} InsertedOnce(unit: DueUnit, sorted: seq<DueUnit>)
    requires NoneTwice(sorted) && forall u | u in sorted :: u.unit != unit.unit
    ensures NoneTwice(Insert(unit, sorted))
    decreases |sorted|
  {
    if sorted != [] && !unit.Before(sorted[0]) {
      var rest := Insert(unit, sorted[1..]);
      InsertedOnce(unit, sorted[1..]);
      InsertHolds(unit, sorted[1..]);
      forall k | 0 <= k < |rest| ensures rest[k].unit != sorted[0].unit {
        assert rest[k] in multiset(rest);
        assert sorted[0] in sorted;
      }
    }
  }

  lemma {:induction false} SortedOnce(units: seq<DueUnit>)
    requires NoneTwice(units)
    ensures NoneTwice(Sort(units))
  {
    if units != [] {
      var n := |units| - 1;
      SortedOnce(units[..n]);
      SortIsOldestFirst(units[..n]);
      forall u | u in Sort(units[..n]) ensures u.unit != units[n].unit {
        assert u in multiset(Sort(units[..n]));
      }
      InsertedOnce(units[n], Sort(units[..n]));
    }
  }

  lemma {:induction false} OfferedOnce(repository: nat, overdue: seq<OverdueSlot>)
    requires forall a, b | 0 <= a < b < |overdue| :: overdue[a].unit != overdue[b].unit
    ensures NoneTwice(Claimables(repository, overdue))
  {
    if overdue != [] {
      var n := |overdue| - 1;
      OfferedOnce(repository, overdue[..n]);
      forall u | u in Claimables(repository, overdue[..n]) ensures u.unit != overdue[n].unit {
        OfferedExactly(repository, overdue[..n], u);
      }
    }
  }

  lemma OneMoreQueue(queues: seq<seq<DueUnit>>, queue: seq<DueUnit>)
    requires UnitsDistinct(queues) && NoneTwice(queue)
    requires forall i, a, b | 0 <= i < |queues| && 0 <= a < |queues[i]| && 0 <= b < |queue| ::
               queues[i][a].unit != queue[b].unit
    ensures UnitsDistinct(queues + [queue])
  {
  }

  /** Units that are overdue once are queued once. */
  lemma {:induction false} QueuedOnce(repositories: seq<RepositoryWork>)
    requires DistinctUnits(repositories)
    ensures UnitsDistinct(Queues(repositories))
  {
    if repositories != [] {
      var n := |repositories| - 1;
      var before, work := repositories[..n], repositories[n];
      var queues: seq<seq<DueUnit>>, due: seq<DueUnit> := Queues(before), Due(work);
      QueuedOnce(before);
      if due != [] {
        OfferedOnce(work.id, work.overdue);
        SortedOnce(Claimables(work.id, work.overdue));
        forall i: int, a: int, b: int | 0 <= i < |queues| && 0 <= a < |queues[i]| && 0 <= b < |due|
          ensures queues[i][a].unit != due[b].unit
        {
          QueuesExactly(before, queues[i]);
          var k :| 0 <= k < n && Due(before[k]) == queues[i];
          DueExactly(before[k], queues[i][a]);
          DueExactly(work, due[b]);
        }
        OneMoreQueue(queues, due);
      }
    }
  }

  /** However far a pass got, what it claimed is fairly shared and names no unit twice. */
  lemma ClaimedRightly(repositories: seq<RepositoryWork>, round: nat, n: nat)
    requires n <= |Queues(repositories)|
    ensures DistinctRepositories(repositories) ==> Fair(repositories, Handed(Queues(repositories), round, n))
    ensures DistinctUnits(repositories) ==> NoneTwice(Handed(Queues(repositories), round, n))
  {
    hide Handed, Queues, DistinctRepositories, DistinctUnits;
    if DistinctRepositories(repositories) {
      var ids, shares := PassIsFair(repositories, round, n);
    }
    if DistinctUnits(repositories) {
      QueuedOnce(repositories);
      HandedOnce(Queues(repositories), round, n);
    }
  }
}
