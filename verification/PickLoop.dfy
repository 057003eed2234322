/** One day of the generator: draw a candidate, drop everything too close to it, draw again
    (crates/core/src/schedule.rs, the inner loop of `select`). */
module PickLoop {
  import opened SchedulePolicies
  import opened Candidates
  import opened FiniteSets

  /** Removes one element by moving the last one into its place. */
  function SwapRemove(candidates: seq<int>, index: nat): seq<int>
    requires index < |candidates|
  {
    var last := |candidates| - 1;
    if index == last then candidates[..last] else candidates[..last][index := candidates[last]]
  }

  /** Keeps the candidates far enough from the one just taken. */
  function Retain(candidates: seq<int>, taken: int, spacingMs: int): (r: seq<int>)
    ensures forall x :: x in r <==> x in candidates && Abs(x - taken) >= spacingMs
    ensures |r| <= |candidates|
  {
    if candidates == [] then []
    else
      var rest := Retain(candidates[1..], taken, spacingMs);
      if Abs(candidates[0] - taken) >= spacingMs then [candidates[0]] + rest else rest
  }

  function AfterPick(candidates: seq<int>, index: nat, spacingMs: int): seq<int>
    requires index < |candidates|
  {
    Retain(SwapRemove(candidates, index), candidates[index], spacingMs)
  }

  /** What a day's draws produce. The number of draws is fixed before the first one, so the list
      can run out; drawing from an empty list then aborts. */
  datatype DayPicks = Picked(instants: seq<int>) | RanDry

  function PickDay(candidates: seq<int>, draws: seq<nat>, spacingMs: int): DayPicks
    decreases |draws|
  {
    if draws == [] then Picked([])
    else if candidates == [] then RanDry
    else
      var index := draws[0] % |candidates|;
      var later := PickDay(AfterPick(candidates, index, spacingMs), draws[1..], spacingMs);
      if later.RanDry? then RanDry else Picked([candidates[index]] + later.instants)
  }

  /** Pairwise distance at least `gap`. */
  predicate Spread(instants: seq<int>, gap: int) {
    forall i, j | 0 <= i < j < |instants| :: Abs(instants[i] - instants[j]) >= gap
  }

  lemma AfterPickExactly(candidates: seq<int>, index: nat, spacingMs: int, x: int)
    requires index < |candidates| && spacingMs > 0
    ensures x in AfterPick(candidates, index, spacingMs)
       <==> x in candidates && Abs(x - candidates[index]) >= spacingMs
  {
    var last := |candidates| - 1;
    var removed := SwapRemove(candidates, index);
    if x in candidates && x != candidates[index] {
      var i :| 0 <= i < |candidates| && candidates[i] == x;
      assert removed[if i == last then index else i] == x;
    }
    if x in removed {
      var i :| 0 <= i < |removed| && removed[i] == x;
      assert x == candidates[if i == index then last else i];
    }
  }

  lemma SpreadPrepend(first: int, rest: seq<int>, gap: int)
    requires Spread(rest, gap) && Clear(first, rest, gap)
    ensures Spread([first] + rest, gap)
  {
    var all := [first] + rest;
    forall i, j | 0 <= i < j < |all| ensures Abs(all[i] - all[j]) >= gap {
      if i == 0 {
        assert rest[j - 1] in rest;
      } else {
        assert Abs(rest[i - 1] - rest[j - 1]) >= gap;
      }
    }
  }

  /** Whatever is drawn, the picks are candidates, as many as the draws, and pairwise spaced. */
  lemma {:induction false} PicksAreSpread(candidates: seq<int>, draws: seq<nat>, spacingMs: int)
    requires spacingMs > 0 && PickDay(candidates, draws, spacingMs).Picked?
    ensures var picks := PickDay(candidates, draws, spacingMs).instants;
            && |picks| == |draws|
            && Spread(picks, spacingMs)
            && forall x | x in picks :: x in candidates
    decreases |draws|
  {
    if draws != [] {
      var index := draws[0] % |candidates|;
      var next := AfterPick(candidates, index, spacingMs);
      PicksAreSpread(next, draws[1..], spacingMs);
      forall x | x in next ensures x in candidates && Abs(x - candidates[index]) >= spacingMs {
        AfterPickExactly(candidates, index, spacingMs, x);
      }
      SpreadPrepend(candidates[index], PickDay(next, draws[1..], spacingMs).instants, spacingMs);
    }
  }

  // ------------------------------------------------- when the list runs dry

  function Instants(candidates: seq<int>): set<int> {
    set x | x in candidates
  }

  /** The pick that hides the earliest candidate together with as many others as possible. */
  ghost function WidestPick(candidates: set<int>, spacingMs: int): (pick: int)
    requires candidates != {} && spacingMs > 0
    ensures pick in candidates && Least(candidates) <= pick < Least(candidates) + spacingMs
    ensures forall y | y in candidates && y < Least(candidates) + spacingMs :: y <= pick
  {
    var near := set y | y in candidates && y < Least(candidates) + spacingMs;
    assert Least(candidates) in near;
    assert forall y | y in candidates && y < Least(candidates) + spacingMs :: y in near;
    Greatest(near)
  }

  ghost function Beyond(candidates: set<int>, spacingMs: int): (rest: set<int>)
    requires candidates != {} && spacingMs > 0
    ensures rest < candidates
    ensures forall y :: y in rest <==> y in candidates && y >= WidestPick(candidates, spacingMs) + spacingMs
  {
    var rest := set y | y in candidates && y >= WidestPick(candidates, spacingMs) + spacingMs;
    assert Least(candidates) !in rest;
    rest
  }

  /** The fewest picks that can use up a day, found by always taking the widest pick. */
  ghost function FewestPicks(candidates: set<int>, spacingMs: int): nat
    requires spacingMs > 0
    decreases candidates
  {
    if candidates == {} then 0 else 1 + FewestPicks(Beyond(candidates, spacingMs), spacingMs)
  }

  predicate Hidden(instant: int, picks: set<int>, spacingMs: int) {
    exists p | p in picks :: Abs(instant - p) < spacingMs
  }

  /** Every candidate is too close to some pick. */
  ghost predicate UsedUp(picks: set<int>, candidates: set<int>, spacingMs: int) {
    forall y | y in candidates :: Hidden(y, picks, spacingMs)
  }

  /** Each pick is a candidate, or lies before every candidate still considered. */
  ghost predicate NotAfter(picks: set<int>, candidates: set<int>) {
    forall p, y | p in picks && y in candidates && p >= y :: p in candidates
  }

  lemma {:induction false} UsingUpTakesFewest(picks: set<int>, candidates: set<int>, spacingMs: int)
    requires spacingMs > 0 && UsedUp(picks, candidates, spacingMs) && NotAfter(picks, candidates)
    ensures FewestPicks(candidates, spacingMs) <= |picks|
    decreases candidates
  {
    if candidates != {} {
      var first := Least(candidates);
      assert Hidden(first, picks, spacingMs);
      var p :| p in picks && Abs(first - p) < spacingMs;
      var rest, others := Beyond(candidates, spacingMs), picks - {p};
      DropPick(picks, p, candidates, spacingMs);
      UsingUpTakesFewest(others, rest, spacingMs);
      assert |picks| == |others| + 1;
    }
  }

  /** Exchanging the pick nearest the first candidate for the widest one loses nothing. */
  lemma DropPick(picks: set<int>, p: int, candidates: set<int>, spacingMs: int)
    requires spacingMs > 0 && UsedUp(picks, candidates, spacingMs) && NotAfter(picks, candidates)
    requires candidates != {} && p in picks && Abs(Least(candidates) - p) < spacingMs
    ensures UsedUp(picks - {p}, Beyond(candidates, spacingMs), spacingMs)
    ensures NotAfter(picks - {p}, Beyond(candidates, spacingMs))
  {
    var first, widest := Least(candidates), WidestPick(candidates, spacingMs);
    assert p <= widest by {
      if p >= first {
        assert p in candidates;
      }
    }
    forall y | y in Beyond(candidates, spacingMs) ensures Hidden(y, picks - {p}, spacingMs) {
      assert Hidden(y, picks, spacingMs);
      var q :| q in picks && Abs(y - q) < spacingMs;
      assert q in picks - {p};
    }
  }

  lemma PickUsesUp(candidates: seq<int>, index: nat, later: set<int>, spacingMs: int)
    requires spacingMs > 0 && index < |candidates|
    requires UsedUp(later, Instants(AfterPick(candidates, index, spacingMs)), spacingMs)
    requires later <= Instants(AfterPick(candidates, index, spacingMs))
    ensures UsedUp({candidates[index]} + later, Instants(candidates), spacingMs)
    ensures {candidates[index]} + later <= Instants(candidates)
  {
    var taken, next := candidates[index], AfterPick(candidates, index, spacingMs);
    forall y | y in Instants(candidates) ensures Hidden(y, {taken} + later, spacingMs) {
      AfterPickExactly(candidates, index, spacingMs, y);
      if y in next {
        assert y in Instants(next) && Hidden(y, later, spacingMs);
        var p :| p in later && Abs(y - p) < spacingMs;
        assert p in {taken} + later;
      } else {
        assert taken in {taken} + later;
      }
    }
    forall y | y in Instants(next) ensures y in Instants(candidates) {
      AfterPickExactly(candidates, index, spacingMs, y);
    }
    SubsetByElements(Instants(next), Instants(candidates));
  }

  /** A day that ran dry had been used up by fewer picks than draws. */
  lemma {:induction false} DryDayWasUsedUp(candidates: seq<int>, draws: seq<nat>, spacingMs: int) returns (picks: set<int>)
    requires spacingMs > 0 && PickDay(candidates, draws, spacingMs).RanDry?
    ensures picks <= Instants(candidates) && |picks| < |draws|
    ensures UsedUp(picks, Instants(candidates), spacingMs)
    decreases |draws|
  {
    if candidates == [] {
      picks := {};
    } else {
      var index := draws[0] % |candidates|;
      var taken := candidates[index];
      var next := AfterPick(candidates, index, spacingMs);
      var later := DryDayWasUsedUp(next, draws[1..], spacingMs);
      picks := {taken} + later;
      PickUsesUp(candidates, index, later, spacingMs);
    }
  }

  lemma AfterWidest(candidates: seq<int>, index: nat, spacingMs: int)
    requires spacingMs > 0 && index < |candidates| && Instants(candidates) != {}
    requires candidates[index] == WidestPick(Instants(candidates), spacingMs)
    ensures Instants(AfterPick(candidates, index, spacingMs)) == Beyond(Instants(candidates), spacingMs)
  {
    var all, next := Instants(candidates), AfterPick(candidates, index, spacingMs);
    forall y ensures y in Instants(next) <==> y in Beyond(all, spacingMs) {
      AfterPickExactly(candidates, index, spacingMs, y);
      assert y in all <==> y in candidates;
      assert y in Instants(next) <==> y in next;
      assert y in all ==> Least(all) <= y;
    }
    SameByElements(Instants(next), Beyond(all, spacingMs));
  }

  lemma SmallRemainder(index: nat, size: nat)
    requires index < size
    ensures index % size == index
  {
  }

  lemma FirstDraw(candidates: seq<int>, index: nat, later: seq<nat>, spacingMs: int)
    requires index < |candidates|
    ensures PickDay(candidates, [index] + later, spacingMs).RanDry?
       <==> PickDay(AfterPick(candidates, index, spacingMs), later, spacingMs).RanDry?
  {
    SmallRemainder(index, |candidates|);
    assert ([index] + later)[1..] == later;
  }

  /** Drawing the widest pick every time uses the day up after the fewest picks. */
  lemma {:induction false} WidestDrawsRunDry(candidates: seq<int>, extra: nat, spacingMs: int) returns (draws: seq<nat>)
    requires spacingMs > 0 && extra > 0
    ensures |draws| == FewestPicks(Instants(candidates), spacingMs) + extra
    ensures PickDay(candidates, draws, spacingMs).RanDry?
    decreases Instants(candidates)
  {
    var all := Instants(candidates);
    if candidates == [] {
      draws := seq(extra, _ => 0);
    } else {
      assert candidates[0] in all;
      var index :| 0 <= index < |candidates| && candidates[index] == WidestPick(all, spacingMs);
      AfterWidest(candidates, index, spacingMs);
      var later := WidestDrawsRunDry(AfterPick(candidates, index, spacingMs), extra, spacingMs);
      FirstDraw(candidates, index, later, spacingMs);
      draws := [index] + later;
    }
  }

  /** Some sequence of draws runs a day dry exactly when more draws are made than the fewest picks
      that can use the day up. */
  lemma RunsDryExactly(candidates: seq<int>, count: nat, spacingMs: int)
    requires spacingMs > 0
    ensures (exists draws :: |draws| == count && PickDay(candidates, draws, spacingMs).RanDry?)
       <==> FewestPicks(Instants(candidates), spacingMs) < count
  {
    forall draws | |draws| == count && PickDay(candidates, draws, spacingMs).RanDry?
      ensures FewestPicks(Instants(candidates), spacingMs) < count {
      var picks := DryDayWasUsedUp(candidates, draws, spacingMs);
      UsingUpTakesFewest(picks, Instants(candidates), spacingMs);
    }
    if FewestPicks(Instants(candidates), spacingMs) < count {
      var draws := WidestDrawsRunDry(candidates, count - FewestPicks(Instants(candidates), spacingMs), spacingMs);
    }
  }

  // ------------------------------------------------------ the counting bound

  lemma {:induction false} MinutesInRange(minutes: set<int>, from: int, count: nat)
    requires forall m | m in minutes :: m % MINUTE_MS == 0 && from <= m < from + count * MINUTE_MS
    requires from % MINUTE_MS == 0
    ensures |minutes| <= count
    decreases count
  {
    if count == 0 {
      SubsetByElements(minutes, {});
    } else {
      var last := from + (count - 1) * MINUTE_MS;
      assert forall m | m in minutes :: m != last ==> m < last;
      MinutesInRange(minutes - {last}, from, count - 1);
      if last in minutes {
        assert |minutes| == |minutes - {last}| + 1;
      } else {
        assert minutes - {last} == minutes;
      }
    }
  }

  /** Each pick hides at most 2 * spacing - 1 distinct minutes. */
  lemma {:induction false} PicksBoundMinutes(minutes: set<int>, spacing: nat)
    requires spacing > 0 && forall m | m in minutes :: m % MINUTE_MS == 0
    ensures |minutes| <= FewestPicks(minutes, spacing * MINUTE_MS) * (2 * spacing - 1)
    decreases minutes
  {
    if minutes != {} {
      var spacingMs := spacing * MINUTE_MS;
      var rest := Beyond(minutes, spacingMs);
      PicksBoundMinutes(rest, spacing);
      HiddenByWidest(minutes, spacing);
      Distribute(FewestPicks(rest, spacingMs), 2 * spacing - 1);
    }
  }

  lemma Distribute(picks: nat, width: nat)
    ensures (1 + picks) * width == width + picks * width
  {
  }

  lemma HiddenByWidest(minutes: set<int>, spacing: nat)
    requires spacing > 0 && minutes != {} && forall m | m in minutes :: m % MINUTE_MS == 0
    ensures |minutes| <= |Beyond(minutes, spacing * MINUTE_MS)| + (2 * spacing - 1)
  {
    var spacingMs := spacing * MINUTE_MS;
    var rest := Beyond(minutes, spacingMs);
    var first, widest := Least(minutes), WidestPick(minutes, spacingMs);
    assert widest <= first + (spacing - 1) * MINUTE_MS;
    MinutesInRange(minutes - rest, first, 2 * spacing - 1);
    assert minutes == (minutes - rest) + rest;
  }

  /** A day starting with more than (count - 1) * (2 * spacing - 1) distinct minutes never runs dry. */
  lemma EnoughMinutesNeverRunDry(candidates: seq<int>, draws: seq<nat>, spacing: nat)
    requires spacing > 0 && forall m | m in candidates :: m % MINUTE_MS == 0
    requires draws != [] && |Instants(candidates)| > (|draws| - 1) * (2 * spacing - 1)
    ensures PickDay(candidates, draws, spacing * MINUTE_MS).Picked?
  {
    var fewest := FewestPicks(Instants(candidates), spacing * MINUTE_MS);
    PicksBoundMinutes(Instants(candidates), spacing);
    if fewest < |draws| {
      AtMost(fewest, |draws| - 1, 2 * spacing - 1);
    }
    hide PickDay, FewestPicks;
    RunsDryExactly(candidates, |draws|, spacing * MINUTE_MS);
  }

  lemma AtMost(a: nat, b: nat, width: nat)
    requires a <= b
    ensures a * width <= b * width
  {
  }

  /** A single draw from a non-empty day always succeeds. */
  lemma OneDrawNeverRunsDry(candidates: seq<int>, draws: seq<nat>, spacingMs: int)
    requires |draws| <= 1 && |draws| <= |candidates|
    ensures PickDay(candidates, draws, spacingMs).Picked?
  {
    if draws != [] {
      var next := AfterPick(candidates, draws[0] % |candidates|, spacingMs);
      assert PickDay(next, draws[1..], spacingMs) == Picked([]);
    }
  }
}
