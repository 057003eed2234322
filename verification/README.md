# What ships, when it ships, and whether it really shipped

A Dafny 4.11 model of the parts of this repository that decide those three questions, with proofs of what
they guarantee. `dafny verify dfyconfig.toml` checks everything.

**When.** `SchedulePolicy`, `Candidates`, `PickLoop` and `SlotGenerator` model the release-time selector of
`crates/core/src/schedule.rs`: policy construction with its greedy capacity check, the candidate minutes of a
day, the loop that draws among them, and the class that walks the calendar with a xorshift state.
`SelectionSoundness` says what a selection guarantees, `SelectionCompleteness` and `SelectionAborts` when a day and
a whole selection can abort, `FixedOffsetDelivery` when one cannot fall short and which policies never abort.
`RequestedSlot` models the separate check of one requested instant and proves that the two code paths agree.
`ScheduleRules` says the rules by calendar and clock, and what each refusal means. A time zone is a pair of fallible
conversions between instants and civil time (`Zone`); spacing needs nothing of them, the daily maximum needs
`Coherent` (an instant inside a date's window falls on that date), and delivery within a year is proved for every
fixed offset. Instants are integers in milliseconds. A draw is modelled by an arbitrary source of
numbers, so what is proved holds for every seed; the 64-bit xorshift generator is one such source.

**What.** `TaskGraph` is the dependency graph with its ready set and dependency counts, refined step by step
against "always the smallest ready task next"; `TaskGraphLaws` says what that order and the cycle diagnosis mean.
`ReleaseUnit` and `FeaturePlan` build on it, and `PlanRules` says what a plan is refused for. `Rotation` hands out due
work in rounds over the repositories.
`ScheduleStore`, `ScheduleFacts`, `QueueRules`, `Milestones`, `BatchScheduling`, `MissedWindows` and `LostTimes` are one
repository's durable queue: its release times, units, task states and prerequisites, plans scheduled whole or not at
all, and what happens to times that passed.

**Whether.** `TaskLifecycle` is the state machine of tasks and attempts. `Publication` is the protocol that
publishes captured work: every step is one durable write or one exchange with the remote; a crash may fall
between any two; a push that was sent may be applied at any later moment or never; other writers set and delete
branches at any time, including with commits of ours they have seen. A push may report success whatever became of
it; the worker then reads the branch, as the code does. A commit holds the changes of some packages, and a package
that its base already holds leaves nothing to commit. The tasks a package carries are walked to published one state
at a time, and blocked one by one when its attempt is; between activities other commands move them too.
`PublicationSafety` proves the invariant of every run. `PublicationLaws`, `PublicationSending`, `PublicationGrounds`
and `PublicationContent` say what reaches the remote, what it is built on and when a branch receives it twice;
`PublicationRecovery`, `PublicationOutcomes`, `PublicationTasks` and `PublicationDelivery` say exactly which
interrupted publications, and which of their tasks, can still be completed; `PublicationTargets` says which branch
receives work, `PublicationRetries` how failures are counted and recorded, `PublicationTerms` the conditions the
protocol turns on, and `PublicationRuns` gives the concrete runs. `RepositoryPolicy` decides which branch a release goes
to. `KeyedRequests` is the claim, dispatch and settle protocol for requests that name their intent, under any
interleaving and any crash, and `KeyedAnswers` traces every answer to the request it came from.

`StatusParser` is the reader of NUL-separated checkout status, proved against a printer of the same format, and
`Utf8` proves its check of paths against an encoder.

Code that changes state step by step is a class or a method with loops, each proved equal to a specification
function; the laws are lemmas about those functions. The two concurrent protocols are state machines over their
steps, and their laws quantify over every run.

## Findings

Places where the code does less than its comments or messages say, each proved with its exact condition.

- A policy that is accepted can make the selector draw from an empty list, which is a remainder by zero. A day
  aborts, for some draws, exactly when it may be asked for more draws than the fewest picks that use it up
  (`DayAbortsExactly`); a whole selection, exactly when some draws lead to such a day (`AbortsExactly`). With a fixed
  offset, a policy aborts for some call exactly when on some day, from some start and beside some slots, fewer picks
  use the minutes up than there are and the maximum allows (`PolicyCanAbortExactly`, and without any slots
  `EmptyCalendarCanAbortExactly`). With a last window of at least two minutes that is every policy with two releases
  a day spaced by more than a minute (`LongWindowCanAbortExactly`; a concrete policy and seed in
  `AcceptedPolicyCanAbort`). One slot at a time, as the daemon selects, never aborts.
- The requested-instant check skips every slot equal to the request, so a second unit can be given an instant that
  another already holds. Accepted requests keep all times spaced exactly when no two are equal
  (`AcceptedKeepsSpacing`, `PlanKeepsSpacing`).
- `reconcile_missed_windows` says a unit is retained because an attempt owns it. It is retained because one of its
  tasks has moved past `scheduled`, or because its time was asked for by hand; a live attempt leaves tasks at
  `scheduled` and does not retain anything (`RetainedExactly`, `RetentionHappens`).
- The same pass can leave a unit without a time, and then stops with an error before the units behind it. That happens
  exactly when the old time can be withdrawn and no new one recorded: nothing is left to draw, the package is not the
  unit's, a task has ended or is blocked, one waits for work outside the unit, or another unit releases the package
  (`LosesTimeExactly`). One blocked task is enough, with every day open (`BlockedLosesItsTime`). A replacement is
  never earlier than the clock passed in, which the maintenance pass sets an interval before the present.
- A process that stops anywhere between opening an attempt and recording its push as pending, or stops or fails between
  recording that the remote confirmed the push and recording the publication, leaves an attempt that nothing resumes,
  on a branch that nothing else can be published to (`CrashLocksExactly`, `LockedForever`, `LockingIsReachable`,
  `StrandingIsReachable`). A pending push whose candidate never left this machine keeps its branch for good as well:
  with nobody at work these are exactly the attempts that own their branch in every run (`KeepsItsBranchExactly`).
- Failing an attempt blocks its package's tasks, and nothing resumes a blocked task; publishing one is refused. So when
  a push lands after its attempt was blocked, recovery records the publication and its tasks stay blocked in every run
  (`OffPathForever`, `BlockedNeverDelivered`, `BlockedThenLanded`). Recovery alone publishes a task exactly when a
  pending candidate is at the target's head and its package carries the task with none before it, nor it, blocked or
  ended (`RecoveryDeliversExactly`), and the whole package exactly when that holds of all its tasks
  (`RecoveryCompletesExactly`).
- A process that stops after recording a publication on the target, and before marking its tasks, leaves them
  unpublished although the target holds the work. Recovery does not look at the attempt again
  (`UndeliveredIsReachable`); such a task is published in a run exactly when another attempt marks it, or it is seen
  merged (`UndeliveredUntilAnother`). Releasing the package again on a target that still holds it makes matters worse:
  there is nothing to commit, so the second attempt is stopped and blocks the tasks for good (`RetryBlocksForGood`).
- A push that landed is found by recovery only while its candidate is still the head of its branch
  (`RecoveryPublishesExactly`). Once another writer has moved the branch on, recovery blocks the attempt instead
  (`RecoveryOfUnlanded`); whether any run can still publish it depends on its candidate having left this machine
  (`PublishableExactly`).
- Maintenance passes honour a pull-request policy; the command that releases one package directly does not
  (`DirectReleaseIgnoresPullRequests`, `DirectReleaseHappens`). Nor does it ask whether the package is on the target
  already (`OpensOnTargetExactly`). A branch still receives a package twice only after some step took it out in
  between (`PublishedTwiceAfterRemoval`), which only another writer does, or a package that undoes it (`TakenOutBy`;
  such a run in `PublishedTwiceHappens`).
- A key is left in progress with no owner exactly when its owner was lost before settling: the process stopped, its
  thread was lost, or recording the outcome failed with the process alive (`OrphanedExactly`, `OrphanedByLosing`,
  `FailedSettlementOrphans`). Every later request with that key is turned away, although the answer says to retry to
  collect the result (`OrphanedForever`, `OrphanedTurnsAway`).
- Two of the declared plan errors, a plan without tasks and an invalid task, cannot be reported
  (`TwoErrorsAreUnreachable`).

## Model

| member | source | states |
|---|---|---|
| SchedulePolicies.SlotCapacity | crates/core/src/schedule.rs:662-677 | the two nested loops count exactly the minutes the earliest-first choice takes |
| SchedulePolicies.GreedyIsOptimal | crates/core/src/schedule.rs:662-677 | no set of window minutes pairwise at least the spacing apart is larger than the earliest-first one |
| SchedulePolicies.CapacityIsExact | crates/core/src/schedule.rs:293-299 | a number of releases fits in one day if and only if it is at most the greedy count |
| SchedulePolicies.PolicyAcceptedExactly | crates/core/src/schedule.rs:259-308 | a policy is accepted if and only if it is well formed and one day can hold its daily maximum; refused for capacity exactly when only that fails; windows are kept, sorted |
| SchedulePolicies.EmptyOverrideKeepsPolicy | crates/core/src/schedule.rs:311-338 | overriding nothing in an accepted policy gives the same policy |
| ScheduleRules.PolicyRefusalsAreExact | crates/core/src/schedule.rs:259-308 | a refused policy is told the first thing wrong with it, with the limits as numbers; a refused daily maximum, the largest number of releases one of its days can hold |
| ScheduleRules.OverrideReplacesWhatItNames | crates/core/src/schedule.rs:311-338 | an override replaces exactly the settings it names, and is accepted if and only if the settings together make a policy |
| ScheduleRules.WeekdaysFollowTheCalendar | crates/core/src/schedule.rs:425-428 | 1970-01-01 is a Thursday, and the seven days of the week follow one another on every date |
| Candidates.ListCandidates | crates/core/src/schedule.rs:596-637 | stepping through the windows minute by minute lists the specified candidates or the same error |
| Candidates.CandidatesExactly | crates/core/src/schedule.rs:596-637 | a candidate is exactly a whole minute, not too early, inside a window of the date and clear of everything occupied |
| Candidates.ListableRegardless | crates/core/src/schedule.rs:604-614 | whether a date can be listed depends only on zone and windows |
| PickLoop.PicksAreSpread | crates/core/src/schedule.rs:451-463 | whatever is drawn, the picks are candidates, one for each draw, and pairwise at least the spacing apart |
| PickLoop.RunsDryExactly | crates/core/src/schedule.rs:451-463 | some draws exhaust a day exactly when more draws are made than the fewest picks that can use it up |
| PickLoop.WidestDrawsRunDry | crates/core/src/schedule.rs:451-463 | always drawing the pick that hides most uses a day up after that fewest number of picks |
| PickLoop.PicksBoundMinutes | crates/core/src/schedule.rs:456-456 | each pick hides at most twice the spacing less one distinct minutes |
| PickLoop.EnoughMinutesNeverRunDry | crates/core/src/schedule.rs:451-463 | a day with more than (count - 1) * (2 * spacing - 1) candidate minutes never draws from an empty list |
| PickLoop.OneDrawNeverRunsDry | crates/core/src/schedule.rs:451-463 | a single draw from a day with a candidate always succeeds |
| SlotGenerators.NeverAbsorbed | crates/core/src/schedule.rs:376-386 | for every seed, zero included, no number of steps leads to the all-zero state |
| SlotGenerators.SlotGenerator.NextIndex | crates/core/src/schedule.rs:479-487 | moves the state one step and returns an index below the bound read from the new state |
| SlotGenerators.SlotGenerator.Pick | crates/core/src/schedule.rs:451-463 | the inner loop takes what the recursive definition of a day's picks takes, and aborts where it runs dry |
| SlotGenerators.SlotGenerator.Walk | crates/core/src/schedule.rs:412-474 | the calendar loop equals the recursive walk, with the same refusals and the same generator state |
| SlotGenerators.SlotGenerator.Select | crates/core/src/schedule.rs:392-477 | the whole selection equals its specification from the state before the call |
| ScheduleRules.FirstDraws | crates/core/src/schedule.rs:376-487 | the first numbers drawn from the seeds zero and one |
| ScheduleRules.KnownSelection | crates/core/src/schedule.rs:392-477 | the two instants that one seed selects from four minutes, worked out |
| ScheduleRules.RemovalKeepsPlaces | crates/core/src/schedule.rs:454-454 | a candidate that is taken is replaced by the last, and every other keeps its place |
| ScheduleRules.RetainedInOrder | crates/core/src/schedule.rs:456-456 | the candidates far enough from a pick keep their order |
| ScheduleRules.DayAimsExactly | crates/core/src/schedule.rs:435-443 | a day can aim at exactly the numbers from what is left of its minimum to what is left of its maximum, as far as slots are still asked for |
| SelectionSoundness.SelectionIsSound | crates/core/src/schedule.rs:392-477 | a selection has exactly the requested number of rising, spaced, whole-minute instants, none too early, each in a window of an allowed weekday and clear of every existing slot, for every source of draws and every zone |
| SelectionSoundness.SelectionWithinDailyMaximum | crates/core/src/schedule.rs:425-462 | no day a selection adds to exceeds the daily maximum, existing slots counted |
| SelectionSoundness.FixedOffsetIsCoherent | crates/core/src/schedule.rs:601-648 | fixed-offset zones meet the condition the daily maximum needs |
| ScheduleRules.SelectionByTheClock | crates/core/src/schedule.rs:392-477 | at a fixed offset, by arithmetic on milliseconds alone: the number of slots, their spacing from each other and from existing ones, whole minutes inside the hours, allowed days of the week, and no date more than 365 days after the first |
| SelectionCompleteness.DayAbortsExactly | crates/core/src/schedule.rs:425-463 | a day with room can abort, for some draws, exactly when it may be asked for more draws than the fewest picks that use it up |
| SelectionCompleteness.AbortNeedsTooManyDraws | crates/core/src/schedule.rs:451-463 | for any source of draws an aborting day was asked for more than that |
| SelectionCompleteness.OneSlotNeverAborts | crates/core/src/schedule.rs:392-477 | selecting one slot, or under a daily maximum of one, never aborts |
| SelectionCompleteness.AcceptedPolicyCanAbort | crates/core/src/schedule.rs:451-456 | an accepted policy and a seed for which the selector aborts |
| SelectionAborts.AbortsExactly | crates/core/src/schedule.rs:392-477 | some draws make a whole selection abort if and only if some choice of draws leads to a day with room for more draws than the fewest picks that use it up |
| SelectionAborts.NoSourceAbortsElsewhere | crates/core/src/schedule.rs:392-477 | no source of draws, the daemon's generator included, aborts where no such day is led to |
| SelectionAborts.SpaciousDayNeverAborts | crates/core/src/schedule.rs:425-463 | a day with more than (most draws - 1) * (2 * spacing - 1) distinct minutes is not such a day |
| SelectionAborts.MinuteSpacingNeverAborts | crates/core/src/schedule.rs:392-477 | with a spacing of one minute in a fixed-offset zone no selection aborts, whatever is asked for |
| FixedOffsetDelivery.NeverFallsShort | crates/core/src/schedule.rs:417-474 | with no existing slots and a daily minimum of at least one, a request for no more slots than allowed weekdays in the next 365 days is never refused |
| FixedOffsetDelivery.AYearHoldsFiftyTwo | crates/core/src/schedule.rs:417-474 | so never for fifty-two slots or fewer, and with one slot, a daily maximum of one or a spacing of one every such request is answered |
| FixedOffsetDelivery.PolicyCanAbortExactly | crates/core/src/schedule.rs:392-477 | a fixed-offset policy aborts for some call if and only if, on some day, from some start and beside some slots, the fewest picks that use the free minutes up are fewer than their number and than the maximum leaves room for |
| FixedOffsetDelivery.EmptyCalendarCanAbortExactly | crates/core/src/schedule.rs:392-477 | without existing slots, if and only if that holds of the minutes from some start on some day |
| FixedOffsetDelivery.LongWindowCanAbortExactly | crates/core/src/schedule.rs:392-477 | with a last window of two minutes or more, if and only if it allows two releases a day spaced by more than a minute |
| RequestedSlots.AcceptedExactly | crates/core/src/schedule.rs:503-575 | a requested instant is accepted if and only if it meets every rule, and is kept as asked |
| ScheduleRules.RequestRefusalsAreExact | crates/core/src/schedule.rs:503-575 | a refused request names the first rule it breaks and by how much: past, weekday, window, nearest slot in minutes, or full day |
| RequestedSlots.AgreesWithGenerator | crates/core/src/schedule.rs:503-575 | for an instant nobody holds, the check accepts exactly what the generator's own candidate list offers on an allowed day with room |
| RequestedSlots.HeldSlotIsNoConflict | crates/core/src/schedule.rs:542-562 | the verdict is the one with every equal slot removed |
| RequestedSlots.AcceptedKeepsSpacing | crates/core/src/schedule.rs:540-554 | adding an accepted instant keeps all slots spaced if and only if nobody held it |
| RequestedSlots.AcceptedKeepsMaximum | crates/core/src/schedule.rs:556-568 | adding an accepted instant nobody held keeps its day within the maximum |
| RequestedSlots.SelectedSlotsAreAccepted | crates/core/src/schedule.rs:392-575 | every selected slot is accepted against the existing slots and the other selected ones |
| RequestedSlots.VerdictIgnoresOrder | crates/core/src/schedule.rs:503-575 | the verdict depends only on which slots exist, not on their order |
| TaskGraphs.TopologicalOrder | crates/core/src/graph.rs:99-142 | counts, dependents index and ready set compute "always the smallest ready task next", and on failure the tasks never placed, ascending |
| TaskGraphs.BuildDependents | crates/core/src/graph.rs:104-112 | the index lists under each dependency exactly the tasks that need it |
| TaskGraphs.Release | crates/core/src/graph.rs:121-131 | takes one off each dependent's count and makes ready exactly those that reach zero |
| TaskGraphs.NewGraph | crates/core/src/graph.rs:48-76 | reports the first repeated task, else the first faulty dependency in order, else the graph or its cycle |
| TaskGraphLaws.RefusalNamesTheFault | crates/core/src/graph.rs:57-76 | the smallest task with a dependency on itself or on a task that is not there is named, and its smallest such dependency, each in its place |
| TaskGraphLaws.RefusalNamesTheRepeat | crates/core/src/graph.rs:48-55 | a repeated identifier is reported before everything else, and is the first to come back |
| TaskGraphLaws.AcceptedExactly | crates/core/src/graph.rs:57-76 | a graph is built if and only if every dependency exists and no path of dependencies returns to its start; its order then has every task once, after all it needs |
| TaskGraphLaws.OrderIsLeast | crates/core/src/graph.rs:114-132 | the order is the lexicographically least of all orders that put dependencies first |
| TaskGraphLaws.InputOrderIsIrrelevant | crates/core/src/graph.rs:48-76 | permuting the definitions changes neither graph, order nor diagnosis; repeated tasks are refused either way |
| TaskGraphLaws.StuckIsLargestBlocked | crates/core/src/graph.rs:134-140 | the tasks reported are the largest set in which every task has a dependency inside the set |
| TaskGraphLaws.StuckExactlyBehindCycles | crates/core/src/graph.rs:134-140 | a task is reported if and only if it is on a cycle or depends, however indirectly, on one |
| TaskGraphLaws.StuckExactlyOnCycle | crates/core/src/graph.rs:134-142 | the order is incomplete if and only if a cycle exists |
| TaskGraphLaws.CycleDiagnosis | crates/core/src/graph.rs:134-140 | the error lists, ascending, exactly what is on or behind a cycle, and one exists |
| ReleaseUnits.AcceptedExactly | crates/core/src/release.rs:21-45 | a unit is accepted if and only if it is not empty and contains what each of its tasks needs |
| ReleaseUnits.RefusalNamesWhatIsMissing | crates/core/src/release.rs:29-42 | the refusal names the smallest incomplete task and exactly what is missing for it, ascending |
| ReleaseUnits.TransitivelyClosed | crates/core/src/release.rs:21-45 | nothing reachable from a unit by dependencies lies outside it |
| ReleaseUnits.OrderRestricts | crates/core/src/graph.rs:114-132 | the whole graph's order filtered to a closed unit is the order of the unit's own graph |
| ReleaseUnits.UnitIsAGraph | crates/core/src/release.rs:21-45 | an accepted unit of a sound graph makes a sound graph, with that order |
| FeaturePlans.Validate | crates/core/src/plan.rs:29-83 | the nested validation loops report the first error in document order, or pass |
| FeaturePlans.ValidatesExactly | crates/core/src/plan.rs:29-83 | validation passes if and only if every key, text, check and phase is in order, tasks are distinct and the graph has no cycle |
| FeaturePlans.TaskOrder | crates/core/src/plan.rs:86-98 | after validation neither definitions nor graph can fail, and the order is a schedule of all tasks |
| PlanRules.OrderServesThePlan | crates/core/src/plan.rs:86-98 | in the words of the plan: that order has every task of every phase once, after each task it depends on, and nothing else |
| PlanRules.RefusalsAreTrue | crates/core/src/plan.rs:29-83 | whatever a plan is refused for is true of it, of the phase, task or check that is named |
| PlanRules.KeysExactly | crates/core/src/plan.rs:129-146 | a key is one to sixty-four characters of a to z, 0 to 9, underscore and hyphen, the first a letter or digit |
| PlanRules.BlankExactly | crates/core/src/plan.rs:148-151 | a text is blank if and only if it consists of the twenty-five white space characters of Unicode |
| Utf8.LengthIsEncodedLength | crates/core/src/plan.rs:152-154 | limits on texts count the bytes of their UTF-8 encoding |
| FeaturePlans.TwoErrorsAreUnreachable | crates/core/src/plan.rs:29-83 | a plan without tasks and an invalid task are never the reported error |
| TaskLifecycle.TaskState.Transition | crates/core/src/task.rs:246-293 | makes exactly the permitted change or returns the error and changes nothing |
| TaskLifecycle.TaskState.TransitionFromBlocked | crates/core/src/task.rs:296-325 | resumes only at the state that was blocked, or ends the work with a reason |
| TaskLifecycle.TaskState.WithdrawSchedule | crates/core/src/task.rs:234-245 | returns a scheduled task to the queue and refuses every other |
| TaskLifecycle.ChangesAreExact | crates/core/src/task.rs:246-325 | a change is made if and only if it goes one place forward or resumes where it was blocked, both without a reason, or blocks or ends open work with one; and what it leaves in each field |
| TaskLifecycle.RefusalsNameTheRule | crates/core/src/task.rs:246-325 | each refusal, with all it names, is given exactly where its rule is the first one broken |
| TaskLifecycle.RestoreAcceptsExactlyReachable | crates/core/src/task.rs:200-225 | stored fields are accepted if and only if some run of requests on a new task produces them |
| TaskLifecycle.ProgressByOneRequest | crates/core/src/task.rs:234-325 | an accepted request moves progress one place forward, holds it, ends the work, or withdraws a schedule, and nothing else lowers it |
| TaskLifecycle.PublishedVisitedEveryState | crates/core/src/task.rs:113-128 | a run that reaches published stood at all eleven earlier states, in order |
| TaskLifecycle.ResumeUndoesBlock | crates/core/src/task.rs:262-325 | blocking and resuming give back the same state, and no other state can be resumed |
| TaskLifecycle.EndedStaysEnded | crates/core/src/task.rs:251-256 | no run changes work that has ended |
| RepositoryPolicies.BuiltExactlySound | crates/core/src/policy.rs:110-157 | the constructors build exactly the policies with a development branch in immediate mode only, different from the target, and pull requests only with one |
| RepositoryPolicies.RefusalsNameTheContradiction | crates/core/src/policy.rs:110-157 | each refusal is given exactly for its own contradiction between mode, branches and integration |
| RepositoryPolicies.WithholdingProtectsTarget | crates/daemon/src/maintenance.rs:650-665 | what is not withheld under a pull-request policy goes to the development branch; the target is chosen exactly in scheduled mode or after the development branch |
| PublicationSafety.StepKeeps | crates/daemon/src/release.rs:238-563 | every step of worker, recovery, crash, remote and other writers keeps the protocol's invariant |
| PublicationSafety.RunKeeps | crates/daemon/src/release.rs:238-794 | so every run from an empty store does |
| PublicationSafety.AdvanceIsSound | crates/store/src/attempts.rs:461-506 | an accepted durable change leaves the attempt coherent, keeps its candidate and never regains a branch |
| PublicationSafety.NewAttemptKeeps | crates/store/src/attempts.rs:330-370 | opening an attempt on a branch nobody holds keeps at most one holder for each branch |
| PublicationTerms.OpensExactly | crates/daemon/src/release.rs:130-235 | a release is opened if and only if nobody is at work, it is not left to a pull request, and every attempt on its branch has ended or was blocked before its push was pending; where it goes, what it is built on and what the new attempt holds |
| PublicationSending.IntentComesFirst | crates/store/src/attempts.rs:415-455 | the step that makes a push pending finds candidate and parent durable and nothing of the candidate sent |
| PublicationSending.SentUnderLease | crates/git/src/lib.rs:687-741 | a push leaves only as the pending, durable candidate of the attempt at work, leased on the candidate's parent, or on the branch being absent where it may be created |
| PublicationSending.SendsOnce | crates/daemon/src/release.rs:396-478 | in every run, crashes included, no attempt sends twice |
| PublicationTerms.TheBranchDecides | crates/daemon/src/release.rs:396-563 | what the branch shows decides, not what the push reported: confirmed if the candidate is at its head at either of two looks, failed after that; and failed before sending where the branch is neither at the parent nor absent and to be created |
| PublicationTerms.LandsWhole | crates/git/src/lib.rs:687-741 | a push is applied if and only if its branch is what the lease names, and then that branch alone moves, to the candidate |
| PublicationGrounds.BuiltOnTheRightHistory | crates/daemon/src/release.rs:256-270 | in every run a recorded parent was once the head of the attempt's own branch or of a branch that was then the target; under a fixed policy an attempt on the target is built on the target |
| PublicationLaws.NamedBeforeItLeaves | crates/daemon/src/release.rs:359-427 | in every run a candidate on the remote, or on its way, is durably named by its attempt, which is at push pending or later or blocked there |
| PublicationTerms.LeftOnlyFromPushPending | crates/daemon/src/release.rs:359-427 | so such an attempt is push pending, confirmed or published, or blocked from one of the first two |
| PublicationLaws.PublishedWasThere | crates/daemon/src/release.rs:529-563 | in every run an attempt is published only if the remote held its candidate on its branch |
| PublicationLaws.OneRacerPerBranch | crates/store/src/migrations.rs:695-700 | in every run a push on its way belongs to the one attempt holding its branch, so no two race for one branch |
| PublicationLaws.LandsOnItsParent | crates/git/src/lib.rs:694-726 | a push that lands finds the candidate's parent at the head, or no branch, and changes no other branch |
| PublicationLaws.LandsAtMostOnce | crates/daemon/src/release.rs:715-735 | in every run no candidate is applied twice |
| PublicationLaws.RecoveryNeverWrites | crates/daemon/src/release.rs:719-794 | no step of recovery, confirmation or blocking changes the remote or sends a push |
| PublicationTerms.RecoverySelectsExactly | crates/store/src/attempts.rs:151-152 | recovery takes up exactly the attempts that are push pending or were blocked there |
| PublicationRecovery.RecoveryDiscovers | crates/daemon/src/release.rs:528-604 | recovering an attempt whose candidate is at its branch publishes it and changes nothing else but, on the target, its package's tasks, which are marked up to the first that is blocked, ended or missing |
| PublicationRecovery.RecoveryOfUnlanded | crates/daemon/src/release.rs:628-794 | recovering one whose candidate is elsewhere keeps a backoff while the branch is unmoved, keeps an earlier reason, and otherwise blocks it with its tasks; nothing is sent |
| PublicationRecovery.DormantForever | crates/daemon/src/release.rs:719-735 | an attempt nobody works on and recovery does not select never changes in any run |
| PublicationRecovery.LockedForever | crates/store/src/migrations.rs:695-700 | while such an attempt owns its branch, in every run no attempt is opened there again |
| PublicationRecovery.CrashLocksExactly | crates/daemon/src/release.rs:238-563 | a crash leaves such an owner if and only if it falls before the push is pending or between the confirmation and the publication |
| PublicationRecovery.DeferralKeepsTheBranch | crates/store/src/attempts.rs:581-627 | putting a transmitted push off counts one failure and keeps its branch owned and its outcome to be resolved, and so does being refused that after 255 |
| PublicationRetries.DeferralCounts | crates/store/src/attempts.rs:581-627 | a deferral adds one to the failures of the attempt and sets the time before which it is not tried again; package, branch, state, candidate, parent and what was observed stay |
| PublicationRetries.DeferralsEnd | crates/store/src/attempts.rs:604-608 | after 255 failures a deferral is refused, and the refusal changes nothing durable |
| PublicationRetries.StepCounts | crates/store/src/attempts.rs:538-627 | a step adds a failure if and only if it puts a pending push off or records a failure of open work, below 255 |
| PublicationRetries.BudgetIsSpentForGood | crates/store/src/attempts.rs:531-627 | over every run, crashes included, the failures of an attempt are exactly its deferrals and recorded failures, never fall and never exceed 255 |
| PublicationRetries.FailureIsRecorded | crates/daemon/src/release.rs:628-686 | an exchange that fails for a reason, left alone after that, blocks the attempt and its tasks where they stood, for that reason, and counts one failure |
| PublicationRetries.InterruptionsLeaveAll | crates/daemon/src/release.rs:719-794 | an exchange that fails while recovering or recording a failure changes nothing durable |
| PublicationRecovery.BlockedKeepsItsReason | crates/daemon/src/release.rs:628-643 | a blocked attempt keeps the state and reason it was blocked with in every run in which the remote never shows its candidate on its branch |
| PublicationOutcomes.PublishableExactly | crates/daemon/src/release.rs:529-563 | in any reachable world with nobody at work an unpublished attempt is published in some run if and only if its push is pending and its candidate has left this machine |
| PublicationOutcomes.KeepsItsBranchExactly | crates/store/src/migrations.rs:695-700 | there, an owner of its branch owns it in every run if and only if recovery does not select it or its candidate never left |
| PublicationOutcomes.NeverLeftNeverPublished | crates/daemon/src/release.rs:744-794 | a pending push that was never sent is never published and keeps its branch |
| PublicationTasks.PublishedExactly | crates/store/src/tasks.rs:263-350 | a step publishes a task if and only if it marks it for an attempt being settled or records a merge, and none unpublishes it |
| PublicationTerms.CommandsExactly | crates/store/src/tasks.rs:263-350 | a command changes a task if and only if nobody is at work and the task's states permit it, a blocked task being only cancelled or superseded |
| PublicationTasks.OffPathForever | crates/store/src/tasks.rs:327-336 | a task that was blocked, cancelled or superseded is never published, in any run |
| PublicationTasks.BlockedNeverDelivered | crates/daemon/src/release.rs:573-604 | so a package that carries one is delivered in no run |
| PublicationTasks.Marking | crates/daemon/src/release.rs:591-604 | left alone, settling publishes the tasks in order up to the first that is off the ordinary path |
| PublicationTasks.MarkedExactly | crates/store/src/tasks.rs:313-350 | a task is then published if and only if it was, or neither it nor one before it is blocked, ended or missing; no other changes |
| PublicationTasks.Stops | crates/daemon/src/release.rs:666-686 | left alone, a recorded failure blocks the tasks in turn |
| PublicationTasks.StoppedExactly | crates/daemon/src/release.rs:668-684 | blocked are exactly those on the ordinary path and not published, resumable where they stood |
| PublicationDelivery.UndeliveredUntilAnother | crates/daemon/src/release.rs:545-604 | a task its dormant attempt left unpublished is published in a run if and only if another attempt marks it in that run or it is seen merged |
| PublicationDelivery.RecoveryPublishesExactly | crates/daemon/src/release.rs:719-794 | left to itself, recovery publishes an idle attempt if and only if its push is pending and its candidate is at the head of its branch |
| PublicationDelivery.RecoveryDeliversExactly | crates/daemon/src/release.rs:719-794 | left to itself, recovery publishes a task if and only if the target's head is the pending candidate of an attempt whose package carries it, and neither it nor one before it is blocked, ended or missing |
| PublicationDelivery.RecoveryCompletesExactly | crates/daemon/src/release.rs:591-604 | left to itself, recovery delivers a package whose push landed on the target if and only if none of its tasks is blocked, ended or missing |
| PublicationContent.CandidateAddsItsWork | crates/git/src/lib.rs:644-678 | in every run the parent of a candidate lacks its package and the candidate holds it: an empty commit is never made |
| PublicationContent.LandsAgainAfterRemoval | crates/git/src/lib.rs:687-741 | in every run, between two landings of one package on one branch some step took it out of the head |
| PublicationContent.PublishedTwiceAfterRemoval | crates/daemon/src/release.rs:130-235 | in every run two attempts publish one package to one branch only with such a step between their landings |
| PublicationContent.TakenOutBy | crates/git/src/lib.rs:687-741 | a package is taken out of a branch if and only if another writer sets the branch to a commit without it or deletes it, or a package that undoes it lands there |
| PublicationContent.LandingChangesExactly | crates/git/src/lib.rs:644-741 | in every run a landing adds exactly its package to what the branch held, and takes out exactly what it undoes |
| PublicationRuns.UndisturbedPublishes | crates/daemon/src/release.rs:238-604 | an attempt just opened on a base that lacks its package, if nothing fails and nobody interferes, is published with its candidate at the head of its branch; on the target its tasks are marked as far as they can be |
| PublicationRuns.UndisturbedStops | crates/daemon/src/release.rs:359-381 | one opened on a base that holds its package ends blocked before any candidate, and its tasks with it |
| PublicationRuns.LockingIsReachable | crates/daemon/src/release.rs:130-235 | from every start with a target branch, opening and stopping locks the branch |
| PublicationRuns.StrandingIsReachable | crates/daemon/src/release.rs:238-563 | so does a run that stops after the confirmation, with the candidate at the head |
| PublicationRuns.UndeliveredIsReachable | crates/daemon/src/release.rs:545-563 | in scheduled mode a run ends with the package published at the head of the target, none of its tasks published, and passed over by recovery |
| PublicationRuns.RetryBlocksForGood | crates/daemon/src/release.rs:359-381 | there a second release of the package blocks its tasks, which no run publishes then |
| PublicationRuns.BlockedThenLanded | crates/daemon/src/release.rs:666-794 | a run whose push lands after its attempt was blocked ends published at the head of the target with its tasks blocked |
| PublicationRuns.DirectReleaseHappens | crates/daemon/src/service.rs:2561-2602 | under a pull-request policy a run ends with a directly released attempt on the target |
| PublicationRuns.PublishedTwiceHappens | crates/daemon/src/release.rs:130-235 | in scheduled mode, once another writer puts the target back, a run publishes one package there twice |
| PublicationTargets.PullRequestsProtectTarget | crates/daemon/src/maintenance.rs:632-725 | under a fixed pull-request policy no run whose attempts are opened by maintenance has one on the target |
| PublicationTargets.DirectReleaseIgnoresPullRequests | crates/daemon/src/service.rs:2561-2602 | a direct release opens one on the target if and only if the package reached the development branch and the target is free |
| PublicationTargets.TargetFollowsDevelopment | crates/daemon/src/release.rs:152-197 | under a fixed immediate policy every attempt on the target is for a package already published to the development branch |
| PublicationTargets.OpensOnTargetExactly | crates/daemon/src/release.rs:130-235 | a release is opened on the target if and only if the mode or a development publication sends it there, it is not withheld and nobody holds the target; being there already is no obstacle |
| PublicationTargets.DevelopmentReceivesOnce | crates/daemon/src/release.rs:152-197 | under a fixed policy no package is published to the development branch by two attempts |
| PublicationTargets.DevelopmentNeverDelivers | crates/daemon/src/release.rs:573-625 | under a fixed policy a task is published only if an attempt carrying it is published on the target branch or it was seen merged |
| Rotation.DueUnits | crates/daemon/src/scheduler.rs:130-203 | hands out as many units as the limit and the queues allow, leaving nothing out below the limit, fairly shared among distinct repositories, none twice if each is overdue once; terminates |
| Rotation.OfferedExactly | crates/daemon/src/scheduler.rs:213-237 | a repository offers exactly its overdue units whose package no live attempt publishes, whose unit and task rows are all there, and each of whose tasks is scheduled |
| Rotation.DueExactly | crates/daemon/src/scheduler.rs:144-178 | a repository's queue holds, ordered by time and then by unit, exactly those, and nothing while it is paused or backing off |
| Rotation.QueuesExactly | crates/daemon/src/scheduler.rs:139-182 | the queues are those of exactly the repositories with something to offer |
| Rotation.SortIsOldestFirst | crates/daemon/src/scheduler.rs:178-178 | the queue holds the same units, the earlier time first and at one time the smaller unit first |
| Rotation.QueuesAreSeparate | crates/daemon/src/scheduler.rs:140-157 | only repositories that are neither paused nor backing off have a queue, each its own |
| Rotation.Rotate | crates/daemon/src/scheduler.rs:184-202 | the round loop stops at the limit or when every unit of every queue is handed out |
| Rotation.PassIsFair | crates/daemon/src/scheduler.rs:184-202 | each repository's part is a prefix of its queue, and one gets two more than another only when the other has none left |
| Rotation.HandedOnce | crates/daemon/src/scheduler.rs:184-202 | no unit is handed out twice if none is queued twice |
| Rotation.QueuedOnce | crates/daemon/src/scheduler.rs:139-182 | none is queued twice if no unit has two overdue slots, all repositories taken together |
| Rotation.ClaimedRightly | crates/daemon/src/scheduler.rs:130-203 | so what a pass has claimed, however far it got, is fairly shared and names no unit twice |
| ScheduleStores.QueueStore.PersistScheduleSlot | crates/store/src/schedules.rs:154-233 | returns an existing slot unchanged, or refuses changing nothing, or records the slot and moves all the unit's tasks |
| ScheduleStores.QueueStore.CheckEligible | crates/store/src/schedules.rs:589-634 | reports the first task that is missing, not queued or waiting, and for one that waits the first prerequisite outside the unit that is missing or short of its milestone |
| QueueRules.WaitsExactly | crates/store/src/schedules.rs:519-545 | a task waits for exactly the prerequisites it names that are missing, planned or building where capture is asked for, unpublished where publication is, or neither published nor on the development branch where that is enough |
| ScheduleStores.QueueStore.CouplingForPlan | crates/store/src/units.rs:420-440 | collects for each task exactly the prerequisites that capture alone satisfies |
| MilestoneFacts.GroupingKeepsClosed | crates/store/src/units.rs:46-155 | grouping keeps every unit closed under captured prerequisites, and a unit formed or found again is exactly the work |
| MilestoneFacts.UnitsStayClosed | crates/store/src/units.rs:46-155 | so in every run every unit contains the captured prerequisites of its tasks |
| MilestoneFacts.OnlyPublicationIsWaitedFor | crates/store/src/schedules.rs:519-634 | so a unit is eligible if and only if every prerequisite outside it is published where its task needs it; a capture is never waited for |
| MilestoneFacts.RecordedAfterItsPrerequisites | crates/store/src/schedules.rs:150-233 | in every run a time is recorded only when every prerequisite is in the unit or so published |
| ScheduleStores.QueueStore.InvalidateScheduleSlot | crates/store/src/schedules.rs:242-320 | withdraws the slot and requeues exactly the scheduled tasks, or refuses at the first task that has moved on |
| QueueRules.WithdrawalIsExact | crates/store/src/schedules.rs:242-320 | refuses, changing nothing, for a missing unit or the first task that is missing or has moved on, only the last being a conflict; otherwise requeues exactly the scheduled tasks |
| ScheduleStores.QueueStore.CreateReleaseUnit | crates/store/src/units.rs:46-155 | groups tasks, returns the same grouping for the same work, and refuses unknown, incomplete or regrouped work |
| QueueRules.GroupingRefusalsAreTrue | crates/store/src/units.rs:46-155 | each refusal names what is true of the queue, the first task concerned, and changes nothing |
| QueueRules.GroupingLeavesOthers | crates/store/src/units.rs:46-155 | grouping changes the members of no other unit |
| ScheduleStores.QueueStore.SelectTime | crates/daemon/src/scheduler.rs:37-96 | selects under the effective policy against the live slots and records the time |
| QueueRules.PolicyInForce | crates/daemon/src/scheduler.rs:57-63 | the effective policy is the repository's, or its settings with exactly those of the override replaced, or what contradicts in them |
| ScheduleFacts.ChosenIsWellChosen | crates/daemon/src/scheduler.rs:64-83 | a chosen time is not early, is the requested one if one was requested, is spaced and within the day's maximum if it was free, and choosing never panics |
| ScheduleFacts.ScheduledHolds | crates/daemon/src/scheduler.rs:37-96 | recording a time adds its slot and disturbs no other |
| ScheduleFacts.RecordedExactly | crates/store/src/schedules.rs:154-233 | a slot is recorded if and only if its times are valid, its package delivers exactly the unit's tasks, each is queued and waits for nothing outside the unit, and neither unit nor package has a slot; all its tasks are then scheduled |
| QueueRules.RecordingRefusalsAreTrue | crates/store/src/schedules.rs:154-233 | each refusal names what is true of the queue, checked in order, with the first task and prerequisite concerned, and changes nothing |
| ScheduleFacts.AskingAgainReturnsTheSame | crates/daemon/src/scheduler.rs:46-48 | asking again for the same unit returns the recorded time and changes nothing |
| ScheduleFacts.AcceptedPolicyGoverns | crates/daemon/src/scheduler.rs:49-62 | an accepted policy in a coherent zone, overridden or not, is one these guarantees hold under |
| ScheduleFacts.WithdrawalUndoesRecording | crates/store/src/schedules.rs:154-320 | withdrawing a time just recorded gives back slots and task states as they were |
| ScheduleFacts.RefusalChangesNothing | crates/daemon/src/scheduler.rs:37-96 | a refused selection leaves the queue as it was |
| BatchScheduling.ScheduleCheckoutBatches | crates/daemon/src/service.rs:3587-3616 | either every batch is accepted in turn, each seeing the slots of those before it, or everything is as before and the first refusal is reported with its position |
| QueueRules.BatchCarriesItsPackage | crates/daemon/src/service.rs:3621-3660 | a batch has no work if and only if its package carries none, and the unit it gets a time for holds exactly the package's tasks |
| BatchScheduling.PlanKeepsSpacing | crates/daemon/src/service.rs:3587-3659 | an accepted plan keeps every earlier slot, keeps different times spaced, and keeps all times spaced if and only if no two are equal |
| BatchScheduling.PlanKeepsMaximum | crates/daemon/src/service.rs:3587-3659 | an accepted plan with new times keeps every day it adds to within the daily maximum |
| BatchScheduling.SameVerdictAsAdvice | crates/daemon/src/service.rs:3670-3743 | a batch's time is judged exactly as the advisory check judges it with the earlier batches' times pending |
| BatchScheduling.AdviceDecidesBatch | crates/daemon/src/service.rs:3621-3743 | so an advised refusal is the batch's refusal, and an allowed time is recorded as asked or refused for another reason |
| BatchScheduling.TakenInstantIsNoObstacle | crates/core/src/schedule.rs:541-547 | the same instant requested twice is accepted twice |
| MissedWindows.ReconcileMissedWindows | crates/daemon/src/scheduler.rs:246-305 | the loop gives each overdue slot its fate in order and stops at the first error, keeping what was done; under a policy that reschedules forward nothing is released, and under one that catches up exactly the units of the first so many slots that nobody asked for by hand |
| MissedWindows.ReconciliationIsSound | crates/daemon/src/scheduler.rs:246-305 | on success every overdue unit is in one of the three lists, whose lengths add up, at most the allowance is released, every unit outside the rescheduled ones keeps its slot, and each rescheduled one has a time no earlier than the clock and spaced from all live slots |
| MissedWindows.ThoseAreInOrder | crates/daemon/src/scheduler.rs:265-304 | each list names overdue units once each, in the order they are overdue |
| MissedWindows.FatesAreDisjoint | crates/daemon/src/scheduler.rs:265-304 | no unit is in two of the lists |
| MissedWindows.ReleasedExactly | crates/daemon/src/scheduler.rs:270-279 | released are exactly those within the allowance that nobody asked for by hand |
| MissedWindows.ReleasesTheFirst | crates/daemon/src/scheduler.rs:265-279 | so what a pass releases is, in order, the units among the first slots of its allowance that nobody asked for by hand |
| MissedWindows.RetainedExactly | crates/daemon/src/scheduler.rs:267-293 | retained are exactly those asked for by hand or with a task that has moved on |
| QueueRules.MissingRowsStopThePass | crates/daemon/src/scheduler.rs:280-293 | a missing unit or task stops the pass with that error; a task that moved on retains the time; either way nothing changes |
| MissedWindows.SeedsCountUp | crates/daemon/src/scheduler.rs:294-301 | the draws of a pass start from the seed given and, one for each overdue slot, those that follow it, round again at 64 bits |
| MissedWindows.ReconciliationKeepsMaximum | crates/daemon/src/scheduler.rs:246-305 | when it is over, every day a new time falls on holds no more than the daily maximum, all live slots counted |
| LostTimes.LosesTimeExactly | crates/daemon/src/scheduler.rs:280-302 | an overdue unit ends without a time if and only if its time can be withdrawn and none recorded in its place, in the terms of policy and queue; reconciliation then returns an error |
| LostTimes.BlockedLosesItsTime | crates/daemon/src/scheduler.rs:280-302 | at a concrete queue under an accepted policy a blocked task makes its unit lose its time |
| LostTimes.RetentionHappens | crates/daemon/src/scheduler.rs:267-293 | at that queue a task that moved on, or a request by hand, retains the time, and a task still scheduled does not |
| KeyedRequests.OneOwnerPerKey | crates/daemon/src/service.rs:499-526 | in every interleaving at most one request is between claiming a key and settling or releasing it |
| KeyedRequests.RepeatedOnlyAfterRelease | crates/daemon/src/service.rs:528-543 | two requests are carried out under one key only if the earlier was a local change that failed retryably and gave the key back |
| KeyedRequests.PublicationIsLastUnderItsKey | crates/daemon/src/service.rs:530-543 | a publication is carried out at most once under a key, and nothing after it |
| KeyedRequests.SettledStays | crates/store/src/idempotency.rs:88-118 | no step changes or removes a settled outcome |
| KeyedRequests.LaterRequestsReplay | crates/store/src/idempotency.rs:35-84 | every later request with the same fingerprint receives that outcome, a different one is refused, and neither is carried out |
| KeyedRequests.SettlingAnswers | crates/daemon/src/service.rs:530-556 | what is settled is what the first caller is answered; a retryable failure of a local change frees the key and changes no other, everything else settles it |
| KeyedRequests.OrphanedExactly | crates/daemon/src/service.rs:499-556 | a step leaves a key in progress with no owner if and only if some request owned it and the step is a crash, the loss of its thread, or its failure to record the outcome |
| KeyedRequests.OrphanedByLosing | crates/daemon/src/service.rs:499-556 | at the end of a run a key is in that state if and only if its owner was once lost that way |
| KeyedRequests.FailedSettlementOrphans | crates/daemon/src/service.rs:541-556 | a run without any crash that leaves a key so |
| KeyedRequests.OrphanedForever | crates/store/src/idempotency.rs:35-118 | such a key stays so in every run |
| KeyedRequests.OrphanedTurnsAway | crates/daemon/src/service.rs:503-524 | every request with such a key is turned away: as still running if its fingerprint is the row's, otherwise with the command of the row |
| KeyedAnswers.ClaimsAreTold | crates/store/src/idempotency.rs:35-84 | a claim takes a free key and nothing else; of a taken one it is told, by fingerprint alone, the outcome, that the request still runs, or the command that used it |
| KeyedAnswers.AnswersHaveTheirSource | crates/daemon/src/service.rs:481-556 | in every interleaving a result is what the request itself returned, or what another of the same key and fingerprint did, or the failure to record it; and every refusal is true of another request with that key |
| KeyedAnswers.UnkeyedAnswersItsReply | crates/daemon/src/service.rs:490-494 | finishing a query, or a command without a key, answers exactly its reply and touches no row |
| KeyedAnswers.UnkeyedRunsThrough | crates/daemon/src/service.rs:490-494 | such a request is carried out once and answered, whatever the keys stand for |
| KeyedAnswers.UnkeyedIsAnswered | crates/daemon/src/service.rs:490-494 | in every run in which it is not lost it is answered the reply it returned |
| KeyedAnswers.UnkeyedGetsItsOwnReply | crates/daemon/src/service.rs:490-494 | and in every interleaving it is never answered anything else |
| StatusParser.DirtyEntries | crates/capture/src/workspace.rs:272-311 | the index loop reads the records as specified, with the same errors |
| StatusParser.RoundTrip | crates/capture/src/workspace.rs:272-311 | reading back rendered entries gives their paths with their ambiguity |
| StatusParser.OneReportedPath | crates/capture/src/workspace.rs:286-308 | byte by byte: two codes, 32, a path and 0 are read as that path, ambiguous for U, AA and DD; R and C need an origin after it and are ambiguous |
| StatusParser.FirstRecordDecides | crates/capture/src/workspace.rs:286-296 | a record of fewer than four bytes, or whose third is not 32, is malformed, and a path that is not UTF-8 is reported as that |
| Utf8.Utf8Exactly | crates/capture/src/workspace.rs:294-296 | bytes are taken for text if and only if they are the encoding of some characters, surrogates excluded |
| Utf8.EncodingIsUnambiguous | crates/capture/src/workspace.rs:294-296 | and of only one text |
| StatusParser.AcceptedExactly | crates/capture/src/workspace.rs:272-311 | output is accepted if and only if its records are those of some list of entries, and then means that list |
| StatusParser.LastEntryDecides | crates/capture/src/workspace.rs:297-304 | a path is ambiguous as its last entry says and absent if no entry names it |
| StatusParser.LostOriginIsMalformed | crates/capture/src/workspace.rs:303-308 | losing the last origin path is reported as malformed |

## Left out

- NeverFallsShort: stated for fixed offsets, not for zones with daylight-saving changes, because a missing hour can remove a day's last window minute; an abort is allowed as an outcome beside an answer, since it can happen.
- AYearHoldsFiftyTwo: for fixed offsets likewise; with a daily maximum of two and a longer spacing an abort can happen, so an answer is not promised.
- PolicyCanAbortExactly: for fixed offsets; `AbortsExactly` holds in every zone.
- PersistScheduleSlot: a package of another plan revision than its unit's cannot occur, because each queue holds one plan revision.
- SelectionWithinDailyMaximum: needs a coherent zone, because with other conversions a slot drawn for one date may be counted on another.
- PullRequestsProtectTarget: for a policy that stays the same during the run; what a policy change does to open attempts is not stated.
- DevelopmentNeverDelivers: likewise for a policy that stays the same.
- AdviceDecidesBatch: for a batch whose work is grouped and has no recorded time yet; one that has is answered with the recorded time.
- The time-zone database behind the conversions, and their rounding of local times that do not exist or exist twice.
- The worker, recovery and keyed execution are steps of state machines on values, not methods over a mutable store, because crashes and other parties act between any two of their statements.
- The tally of a maintenance pass, commit attribution and messages. Withdrawing the spent slot after a development publication is one of the commands that move tasks.
- Git itself: object storage, fetching, applying and verifying a snapshot are steps that succeed or fail. Candidates of different attempts are taken to be different commits, and a package adds something to a commit exactly when the commit does not hold it.
- The order of attempts within one recovery pass, retries after a deferral, lease expiry, and whether recovery ever runs: only safety and what one recovery does are stated.
- Failure classifications, connectivity backoff and evidence: they decide neither what reaches the remote nor what becomes of tasks. Counting a failure and blocking its attempt are one step.
- Errors of the store before a keyed command starts: such a request is answered an error and is one that is lost before it claims its key.
- Each publication run concerns one remote and one repository policy; each queue concerns one repository and one plan revision.
- SQL text, transactions of the storage engine, JSON encoding of stored outcomes, and command fingerprints as hashes: rows are maps, a transaction is one step, fingerprints are compared as values.
- Releasing a unit at once on request, cancelling tasks, recalculating after a policy change, plan history and pull-request passes: they would add members with the same invariants.
- Which tasks have an attempt published to the development branch is an input of the queue.
- Command-line interface, diagnostics, GitHub client, transport framing, snapshots and bundles.
