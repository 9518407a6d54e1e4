# Verified model of the ai-maestro janitor

A Dafny model of the parts of the janitor that make promises over unbounded runs, and proofs of what
they keep. Each module follows one component of the program. Code that updates state in place is a
class or a method with loops, proved equal to a function of the old state and of everything the world
decides; the promises are lemmas about that function over every input, every interleaving or every run.
Check everything with `dafny verify dfyconfig.toml`.

**The daemon's scheduler** (`TaskRecord`, `DispatchOrder`, `DuePass`, `Daemon`, `DispatchRules`,
`ReleaseQueue`, `ReleaseBooks`, `Fairness`, `BulkLane`, `ForegroundBudget`). `TaskRecord.Task` is one chore: stamp, failure streak,
quarantine penalty, child handle. `Daemon.Loop.RunDueTasks` is one due-pass over mutable task objects;
it computes `DuePass.Pass`, the same pass as a function of the scheduler's state and a `PassEnv` that
holds all outcomes, durations, exits, stops and the pressure reading. `DispatchRules` says who is dispatched
and with what effect, place by place, from the stamps, the clock and the budget used so far alone. A run is any sequence of passes,
direct task runs and sleeps of one daemon process. The release queue drains exactly under the conditions
stated, and there is a state, reachable with the shipped cadences, from which that process never drains it
again; the queue lives in memory, so a restart empties it (scripts/daemon.py:3780).

**The recovery ladder** (`RecoveryLadder`, `RecoveryRules`, `RecoveryFleet`): one record, driven by the beats
of every process that shares it; exactly when a beat pokes, declines, waits or gives up, what is counted for
one process, and exactly which beats of others keep that count. Record files are keyed by a slug of the project's root, and a project has its record to itself
exactly when no other one has its slug.

**The arm protocol** (`ArmProtocol`): crash anywhere between unlinking the opt-out and recording the
cron's id. There is never a second heartbeat, with two exceptions given exactly: a stale id that survives
a given-up arm, which the skill's fallback sweep removes, and a sweep that cannot list the live one.

**The clear chain** (`ResumeState`, `ClearChain`, `InjectionRules`, `ChainLock`, `Singleflight`): the marker files under any
overlap of their writers and consumers, how long recovery cues veto a clear, the verified injector, and
two locks as interleaved steps of any number of processes.

**Budgets that survive crashes** (`Workload`, `PluginBudget`, `IntegrityRepin`, `LeaseMerge`): the shared
time budget of retries, attempts counted before they run, the ticket counter, and the lease log.

**Self-contained algorithms** (`VersionSelect`, `CronStagger`, `GoalSanitizer`, `GoalRules`,
`ScriptJson`, `RetryLoop`, with `Common` and `Text`).

What the environment decides is always a parameter: process exits, file failures, pane contents, clocks,
hashes (SHA-256, HMAC), `str.isprintable`, decimal digits, the manifest parser. Operators' knobs are constants without a
value, or parameters, so the theorems hold for every setting. The clock never runs backwards.

Where the code and its comments differ, the model follows the code:

- The release slot goes to the first queued chore that is due; nothing asks whether it could run
  (scripts/daemon.py:3938-3943). A yielded head, or a bulk head that is not the lane's candidate, blocks
  the queue (`ReleaseQueue.YieldedHeadBlocks`, `ReleaseQueue.DeadlockIsForever`).
- A refused spawn lengthens the failure streak without announcing the quarantine
  (scripts/daemon.py:3280-3284; `TaskRecord.SilentQuarantine`).
- The announcement latch is cleared by a calm reading alone, although its description also waits for the
  backlog (scripts/daemon.py:3828-3830 against 3888-3908).
- `fleet-stop` is in the budget's floor but not exempt from pressure, `runaway-guard` the other way round;
  `Config` keeps the two properties independent (scripts/daemon.py:371-373, 3486-3493).
- Chores held back by pressure keep the sleep at one second (scripts/daemon.py:4111-4121;
  `Daemon.DeadlockSpins`).
- Record files are per instance by description, but `re.sub` maps different roots to one slug
  (scripts/daemon.py:1548-1552; `RecoveryFleet.SlugsCollide`, `RecoveryFleet.KeptApartExactly`).
- The version stub is described as failing open, but an entry path that no system call can open, a pinned
  MAC that is not ASCII, a file nested past the parser's limit, or a chosen file that cannot be executed
  ends it with runnable versions on disk (scripts/dispatcher-stub.py:90-104, 209, 251; `VersionSelect.Select`).
- The clear flag's readers rely on its time being there; the sweep of aged flags and the fallback writer
  work outside the chain's lock and can leave it without one (scripts/dispatch.py:2688-2693 and
  scripts/clear_trigger.py:1399; `ResumeState.OverlapMarkedExactly`).
- A busy marketplace lock erases a plugin's streak of failed attempts
  (scripts/daemon.py:4717-4727; `PluginBudget.ContentionErasesStreak`).
- Losing the failures file is described as costing one extra attempt per request; it costs two
  (scripts/daemon.py:4648-4649; `PluginBudget.LossCostsTwoAttempts`).
- The arm script's description claims that a crash never leaks a heartbeat
  (scripts/arm_prepare.py:23-32; `ArmProtocol.StaleIdLeaks`).
- The lock's stale takeover can remove a live holder's file
  (scripts/external_handoff_clear.py:711-718; `Singleflight.StatAfterReleaseBreaks`).
- The goal sanitizer's description promises that paste markers are gone
  (scripts/clear_trigger.py:142-149; `GoalSanitizer.PasteFreeExactly`).

## Model

| member | source | states |
|---|---|---|
| TaskRecord.Task.Run | scripts/daemon.py:3349-3398 | A live child makes it a no-op; otherwise stamp at the end of the body, streak extended or reset, one push exactly when the body completes the K-th failure |
| TaskRecord.Task.SpawnBackground | scripts/daemon.py:3258-3284 | A spawn only sets the handle; a refused one stamps and lengthens the streak but announces nothing |
| TaskRecord.Task.PollBackground | scripts/daemon.py:3309-3347 | Only a finished child is reaped and stamped; past the cap plus grace a live one is killed and left to be reaped later |
| TaskRecord.PenaltyMonotone | scripts/daemon.py:3232-3240 | A longer streak never shortens the penalty, and no penalty exceeds an hour |
| TaskRecord.PenaltyExactly | scripts/daemon.py:3232-3240 | No penalty up to the second failure, the cadence at the third, doubled with each further one, never above an hour |
| TaskRecord.DueWithinAnHourOfCadence | scripts/daemon.py:3242-3252 | A childless task is due exactly from stamp + cadence + penalty on, so within an hour of its plain cadence whatever its streak |
| TaskRecord.DueAfterExactly | scripts/daemon.py:3242-3252 | A childless chore becomes due after exactly the seconds it is said to have left, and not one earlier |
| TaskRecord.ChildIsRechecked | scripts/daemon.py:3242-3252 | One whose child is in flight asks for the recheck beat and is never due |
| TaskRecord.ReplayCounts | scripts/daemon.py:3309-3398 | Replaying the real bookkeeping over any history gives the two counts below |
| TaskRecord.StreakIsTrailingRun | scripts/daemon.py:3373-3397 | The failcount is the length of the trailing run of failures, maximal |
| TaskRecord.PushesCountAnnouncedStreaks | scripts/daemon.py:3287-3307 | Pushes equal the number of streaks whose K-th failure was a body or a reap |
| TaskRecord.SilentQuarantine | scripts/daemon.py:3274-3284 | A streak completed by a refused spawn is quarantined without a push |
| DispatchOrder.Insert | scripts/daemon.py:4033-4035 | Inserting keeps the order sorted by floor first, then stamp, then registration |
| DispatchOrder.Order | scripts/daemon.py:4033-4035 | Every task once, floor first, least recently run first, ties in registration order |
| DispatchOrder.OrderExactly | scripts/daemon.py:4033-4035 | Any two places of the order: floor first, then the older stamp, then the registration |
| DispatchOrder.BulkNext | scripts/daemon.py:3671-3695 | A due un-yielded bulk task none of the others precedes by stamp; None only if there is none |
| DuePass.NextRelease | scripts/daemon.py:3922-3943 | A queued chore that is due, None only when no queued chore is; nothing else is asked of it |
| DuePass.RegistryKeptByRun | scripts/daemon.py:3978-4100 | No run changes a task's configuration or turns the clock back |
| DuePass.LoopInduction | scripts/daemon.py:4050-4099 | Whatever every place of the dispatch loop keeps, the loop keeps |
| Daemon.Loop.RunDueTasks | scripts/daemon.py:3978-4100 | The pass over mutable tasks equals the specified pass: final state, dispatch log, and whether the lane is busy after it |
| DispatchRules.PlaceExactly | scripts/daemon.py:4050-4099 | What each place does to log, chore, queue, announcements and clock, from the chore as the pass opens, the delays and bodies so far, and the stops |
| DispatchRules.DispatchedExactly | scripts/daemon.py:4057-4098 | A chore is dispatched if and only if, at its place and before any stop, it is un-yielded, this thread's, childless, past its cadence and penalty by the clock there, admitted by pressure and queue, and has the lane or the budget; bulk chores are spawned, the others run |
| DispatchRules.CalmStarts | scripts/daemon.py:4057-4098 | In a calm pass every such chore that waits for no turn is dispatched |
| DispatchRules.TaskExactly | scripts/daemon.py:4050-4099 | What a pass leaves of each chore: stamp, streak and child, as started or as it opened |
| DispatchRules.OpeningExactly | scripts/daemon.py:4015-4017 | What the opening reap makes of each chore |
| DispatchRules.PlanExactly | scripts/daemon.py:4018-4049 | Over the bar exactly at a known reading of at least the bar, no slot then, and no lane candidate while a bulk child lives |
| DispatchRules.DirectRunExactly | scripts/daemon.py:3349-3398 | A direct run outside a pass is nothing while a child is alive, else stamps the end of the body and counts it |
| Daemon.Loop.DispatchAll | scripts/daemon.py:4050-4099 | The loop with its early stop equals the specified loop over the whole order |
| Daemon.Loop.Dispatch | scripts/daemon.py:4055-4099 | One place: guard order, deferral, spawn, run, budget and queue update |
| Daemon.Loop.Judge | scripts/daemon.py:4057-4098 | The guards in the source's order decide leave, defer, launch or execute |
| Daemon.Loop.MakePlan | scripts/daemon.py:4018-4049 | Lane candidate only if the lane is free, slot only under the bar, latch cleared exactly on a calm reading |
| Daemon.Loop.NextBulkTask | scripts/daemon.py:3671-3695 | The scan finds the specified candidate |
| Daemon.Loop.PressureNextRelease | scripts/daemon.py:3922-3943 | The scan finds the first queued chore whose name is due |
| Daemon.Loop.PollAll | scripts/daemon.py:4015-4017 | Every background task is reaped, no other is touched |
| Daemon.Loop.BulkBusy | scripts/daemon.py:4018-4018 | Some background child is alive |
| Daemon.Loop.SleepSeconds | scripts/daemon.py:4103-4121 | Between 1 and 60 s, no longer than any counted task's contribution, equal to one of them or the ceiling; 1 exactly when some counted task contributes at most 1 |
| Daemon.ContributionExactly | scripts/daemon.py:4103-4121 | A chore contributes the seconds after which it is due, exactly; only a due bulk chore behind a busy lane asks for the recheck beat |
| Daemon.DeadlockSpins | scripts/daemon.py:4103-4121 | Under a deadlocked queue, while the waiting chore of the pair is un-yielded, no sleep of the process is longer than the recheck beat with a bulk child running, nor longer than a second with the lane free |
| ReleaseQueue.QueueInvariant | scripts/daemon.py:3911-3975 | In every run: no duplicates, only registered chores, never an exempt or thread-owned one |
| ReleaseQueue.QueuedStayDue | scripts/daemon.py:3922-3943 | Unless a queued chore is run directly, everything queued stays due |
| ReleaseQueue.HeadIsReleased | scripts/daemon.py:3938-3943 | Then the slot of a pass under the bar is the head's |
| ReleaseQueue.OverBarPass | scripts/daemon.py:4069-4080 | Over the bar only exempt chores start and nothing leaves the queue |
| ReleaseQueue.CalmPass | scripts/daemon.py:4047-4099 | Under the bar nothing is added, at most the slot's chore leaves, order kept, and nobody else waiting is dispatched |
| ReleaseQueue.SlotServedExactlyWhen | scripts/daemon.py:4050-4099 | The queue shrinks if and only if the slot's chore is reached before a stop, un-yielded, and either the lane's candidate or a foreground chore with budget left |
| ReleaseBooks.CalmQueueStep | scripts/daemon.py:4047-4099 | A calm pass takes one chore off the queue, the first that is due as it opens, if and only if its turn is served; otherwise none |
| ReleaseBooks.BooksAreRight | scripts/daemon.py:4047-4099 | Over any actions, direct runs of queued chores included: the queue is all it was ever fed, in that order, but for one chore per serving pass, each the first due at the time |
| ReleaseBooks.BacklogDrains | scripts/daemon.py:4047-4099 | Over any actions that never run it directly, a due queued chore moves up one place with each serving pass as long as it waits, so its own place in the queue bounds how many it waits through |
| ReleaseBooks.FirstInFirstOut | scripts/daemon.py:4047-4099 | If no queued chore is run directly the queue is first in, first out: the feed without as many of its first chores as passes served |
| ReleaseBooks.ForegroundTurnIsServed | scripts/daemon.py:4088-4099 | A calm pass serves an un-yielded foreground chore whose turn it is if no stop comes before it and the bodies ahead stay under budget, however long its own body |
| ReleaseQueue.DeadlockedPass | scripts/daemon.py:4073-4087 | No pass dispatches anything of a deadlocked queue |
| ReleaseQueue.DeadlockIsForever | scripts/daemon.py:4073-4087 | Whatever follows in the same process, the deadlocked queue keeps all it holds and the pair is never touched |
| ReleaseQueue.YieldedHeadBlocks | scripts/daemon.py:4056-4058 | A yielded head keeps the slot and the queue stands still |
| ReleaseQueue.DeferredIsQueued | scripts/daemon.py:4078-4080 | Over the bar every due, gated chore the loop reaches ends the pass queued |
| ReleaseQueue.DeadlockIsReachable | scripts/daemon.py:4073-4087 | Two passes half an hour apart reach the deadlock from an empty queue with six-hour cadences |
| Fairness.ActKeepsBehind | scripts/daemon.py:3671-3695 | Nothing the daemon does brings a task back ahead of a waiting chore |
| Fairness.AheadOnlyShrinks | scripts/daemon.py:3671-3695 | While a chore waits, the set of those ahead of it never grows |
| Fairness.WaitingGoesOn | scripts/daemon.py:4050-4099 | A due chore that is not dispatched is unchanged and still due |
| BulkLane.AtMostOneChild | scripts/daemon.py:4018-4087 | In every run at most one bulk child is alive |
| BulkLane.PassKeepsLane | scripts/daemon.py:4015-4087 | A pass overwrites no handle: a child still running is held as the same process afterwards |
| BulkLane.GrantRemovesRival | scripts/daemon.py:3671-3695 | A grant to another chore takes it out of the waiting one's way for good |
| BulkLane.LaneWaitIsBounded | scripts/daemon.py:3671-3695 | While a due un-yielded bulk chore waits, the lane goes to others at most once each, under any pressure and any stops |
| BulkLane.CalmPassGrantsLane | scripts/daemon.py:4081-4087 | A calm pass with a free lane spawns the candidate, unless it waits for a release turn that is not its own |
| BulkLane.LaneComesRound | scripts/daemon.py:3671-3695 | A waiting due bulk chore waits through at most as many passes that find the lane open as there are chores ahead of it |
| ForegroundBudget.PassCost | scripts/daemon.py:4088-4099 | Floor bodies first; every other body starts under budget; total is the floor's time or less than the budget plus one body |
| ForegroundBudget.SomebodyElseRan | scripts/daemon.py:4088-4099 | If the floor leaves budget and a due chore is passed over, a non-floor body at least as old ran before it |
| ForegroundBudget.PutOffIsBounded | scripts/daemon.py:4033-4099 | Whatever else happens meanwhile, a waiting due foreground chore outside the floor is put off by calm passes that leave it budget at most once per chore ahead of it |
| RecoveryFleet.Guardian.RunBeat | scripts/daemon.py:1927-2511 | A beat is the per-instance step folded over the fleet, records and histories by slug; a human typing defers all of it |
| RecoveryFleet.Guardian.RunOne | scripts/daemon.py:1927-2511 | One instance: clearing, identity stamp, gate, guards, decline, give-up and fire update the record file of its slug as specified |
| RecoveryFleet.FleetInduction | scripts/daemon.py:1927-1931 | Whatever every instance keeps of records and histories, a beat over the fleet keeps |
| RecoveryFleet.FleetIsPlay | scripts/daemon.py:1927-1931 | Over any beats of the whole fleet a slug's record and history are those of all instances with that slug |
| RecoveryFleet.SlugExactly | scripts/daemon.py:1548-1552 | The slug is the root with every odd character as an underscore, less those at both ends, or "root" if nothing is left |
| RecoveryFleet.KeptApartExactly | scripts/daemon.py:1548-1552 | In every run from every state a project's record and history are those of its own instances alone, if and only if no other project has its slug |
| RecoveryFleet.CollisionWipes | scripts/daemon.py:1958-1961 | For every colliding pair, a healthy process of one wipes the record of a process of the other that was just poked |
| RecoveryFleet.SlugsCollide | scripts/daemon.py:1548-1552 | The roots /w/a/b and /w/a_b share one file |
| RecoveryRules.FiredExactly | scripts/daemon.py:2109-2511 | A rung is fired if and only if help is needed, the budget is not spent, the cooldown is over, nobody's answer is awaited, it is the diagnosis's rung, and a plan, a free field, permission and a landed keystroke are there where that rung needs them; then one attempt is charged |
| RecoveryRules.AwaitedExactly | scripts/daemon.py:2119-2145 | A considered process that waits for its user is left alone: attempts unchanged, cooldown stamped, audited once |
| RecoveryRules.DeclinedExactly | scripts/daemon.py:2250-2500 | Each reason for a decline, with its exact guard |
| RecoveryRules.DeclineSpendsNothing | scripts/daemon.py:1967-2044 | A decline charges no attempt, stamps the cooldown and remembers its reason |
| RecoveryRules.GaveUpExactly | scripts/daemon.py:2045-2108 | Given up exactly when help is needed with the budget spent and no give-up recorded yet |
| RecoveryRules.SilentExactly | scripts/daemon.py:1930-1966 | When a beat enters nothing, and that it clears the record exactly of a process that is well and not rate-limited |
| RecoveryRules.OnlyPokesSpend | scripts/daemon.py:2489-2491 | Attempts are charged by fired rungs, one each, and by nothing else |
| RecoveryRules.EveryPokeIsDue | scripts/daemon.py:1927-2511 | Over any beats every fired rung in the history belongs to a beat that had all it takes |
| RecoveryRules.EveryDuePokeIsFired | scripts/daemon.py:1927-2511 | And every such beat fired it |
| RecoveryLadder.StrangerSparesExactly | scripts/daemon.py:1955-1961 | A beat of another process leaves a record and its attempts as they are if and only if it submits its own text, or is no recovery case and rate-limited; otherwise the owner starts afresh |
| RecoveryLadder.DisturbanceRefills | scripts/daemon.py:1955-1961 | After any other beat of another process the owner's next needy beat pokes, whatever was spent |
| RecoveryLadder.BudgetHolds | scripts/daemon.py:2045-2108 | Over any mixed run in which no beat takes the record away: a process gets at most four rungs, its decisions a cooldown apart, at most one give-up, with the budget spent, and nothing after it |
| RecoveryLadder.GiveUpIsRecorded | scripts/daemon.py:2045-2108 | In such a run, with the budget spent, the very next actionable beat of the process has recorded the give-up |
| RecoveryLadder.OneAuditOneEscalation | scripts/daemon.py:1967-2018 | In such a run, per maximal run of the process's equal declines, one audit, the first; one escalation iff some decline falls the threshold after the first, never two |
| RecoveryLadder.HopelessProcess | scripts/lib/fleet_recovery.py:112-124 | The bound is met exactly: four pokes, then one give-up, then silence |
| RecoveryLadder.SharedRootDefeatsBudget | scripts/daemon.py:1955-1961 | Two processes on one root reset each other's record: every beat pokes, no give-up ever |
| RecoveryLadder.PlayInduction | scripts/daemon.py:1927-2511 | Whatever every beat keeps of record and history, any number of beats keeps |
| ArmProtocol.StateDir.Prepare | scripts/arm_prepare.py:241-278 | Opt-out revoked first, then the id taken; a sweep is asked for exactly when no id is in hand |
| ArmProtocol.StateDir.TakePriorCronId | scripts/arm_prepare.py:148-165 | The id is returned only if it was consumed; otherwise the directory is unchanged and the id unknown |
| ArmProtocol.StateDir.Record | scripts/arm_record.py:49-85 | Refused without a trace unless cadence and id are well formed; else clock, cadence and id |
| ArmProtocol.RecordedIdIsTaken | scripts/arm_record.py:40-57 | What one arm records the next takes back unchanged |
| ArmProtocol.WritesMakeTheRecord | scripts/arm_record.py:53-57 | The three crashable writes in a row are the record |
| ArmProtocol.FlawlessArm | skills/janitor-arm/SKILL.md:59-70 | An arm that nothing disturbs ends with its own heartbeat as the only one, recorded, the opt-out gone |
| ArmProtocol.ValidIdExactly | scripts/arm_record.py:40-57 | The ids that are accepted, by length and character code |
| ArmProtocol.NeverTwoHeartbeats | scripts/arm_prepare.py:23-32 | Any crashes and file failures: at most one heartbeat, and between arms a stored id is its id, unless one arm leaves a stale id and fails to record its cron, or a sweep it needs cannot list a live heartbeat |
| ArmProtocol.StaleIdIsTheOnlyException | scripts/arm_prepare.py:148-165 | Giving up an arm with its cron live keeps the guarantee if and only if no other id stays on disk |
| ArmProtocol.MissedSweepLeaks | skills/janitor-arm/SKILL.md:59-70 | After a sweep that misses a heartbeat the next CronCreate makes a second one, under either protocol; an arm that dies first does no harm |
| ArmProtocol.StaleIdLeaks | scripts/arm_prepare.py:156-164 | From every safe state with an id: failed unlink, crash after CronCreate, then one flawless arm, and two heartbeats fire |
| ArmProtocol.FallbackHeals | skills/janitor-arm/SKILL.md:59-70 | With the sweep after a failed delete there is never a second heartbeat, whatever the files do, unless a sweep misses a live one |
| ArmProtocol.OptOutGoesFirst | scripts/arm_prepare.py:241-253 | No crash point leaves a cron, or a running arm, beside the opt-out, unless the unlink of an opt-out that is there fails |
| ArmProtocol.FailedRevokeIsTheOnlyException | scripts/arm_prepare.py:241-253 | From every state in order a step breaks that if and only if it is such an unlink |
| ArmProtocol.FailedRevokeHidesCron | scripts/arm_prepare.py:241-253 | An arm after such an unlink, flawless otherwise, ends with a live heartbeat beside the opt-out |
| ResumeState.PersistedExactly | scripts/clear_trigger.py:492-585 | What the callback leaves on disk if nothing raises, file by file |
| ResumeState.CutShortExactly | scripts/clear_trigger.py:492-585 | And if one of the first three writes raises: those before it, and nothing after |
| ResumeState.WriterCrashesSafely | scripts/clear_trigger.py:333-347 | After any prefix of the writes the flag has its time; before the third write the flag is untouched |
| ResumeState.ConsumerCrashesSafely | scripts/clear_trigger.py:192-195 | After any prefix of the unlinks the flag has its time; after the first it is gone |
| ResumeState.MarkedExactly | scripts/clear_trigger.py:192-195 | Over any sequence of writes and unlinks that writes times before flags, from a disk in order: a flag is left without its time if and only if one stands at the end and an unlink of the time comes after every write of it |
| ResumeState.OverlapMarkedExactly | scripts/clear_trigger.py:333-347 | The same for every interleaving of any writers and consumers, each killed anywhere |
| ResumeState.TimeLostExactly | scripts/clear_trigger.py:192-195 | The condition on the time says just that: some unlink of it with no later write |
| ResumeState.OvertakenConsumerUnmarks | scripts/clear_trigger.py:192-195 | One writer overtaking one consumer, an interleaving of the two, leaves a flag without its time |
| ResumeState.VetoEndsExactly | scripts/clear_trigger.py:683-824 | On a fixed disk the veto holds exactly until the latest of three moments read off the flags |
| ResumeState.VetoExactly | scripts/clear_trigger.py:683-824 | The veto on any disk at any time, cue by cue, with the limits in seconds; a chain does not mind the clear flag it wrote itself |
| ResumeState.VetoIsOverInADay | scripts/clear_trigger.py:773-816 | With the shipped limits it is over a day after the youngest flag, whatever the flags |
| ResumeState.OrphanedFlagVetoesBriefly | scripts/clear_trigger.py:785-811 | An unarmed clear flag alone vetoes for thirteen minutes exactly |
| ClearChain.StateDir.PersistResumeState | scripts/clear_trigger.py:492-585 | Directive, time, flag, then hold, sidecar and stamp as asked for; an exception in the first three cuts the rest |
| ClearChain.StateDir.ConsumeResumeFlag | scripts/clear_trigger.py:192-195 | Flag, time and session stamp go in that order |
| ClearChain.StateDir.InjectUntilSent | scripts/lib/terminal_trigger.py:1200-1365 | The loop's keystrokes and ending are as specified; the disk changes only if the callback before Enter ran |
| ClearChain.InjectIsVerified | scripts/lib/terminal_trigger.py:1200-1365 | Typing only into an empty field with the user quiet; every Enter after a read-back of exactly the command; persist at most once, directly before it; any other ending pressed no Enter |
| InjectionRules.InjectExactly | scripts/lib/terminal_trigger.py:1200-1365 | An injection ends in the first round that decides, in that round's way; which rounds typed, which cleared, how often Enter was pressed |
| InjectionRules.SubmitsExactly | scripts/lib/terminal_trigger.py:1314-1345 | Enter is pressed (or the callback raises) if and only if some round is ready, field empty or ours and read back, before any other ends the attempt |
| ClearChain.StateDir.RunChainPayload | scripts/clear_trigger.py:437-1004 | The whole chain equals its specification: result, disk, keystrokes before and after the gate |
| InjectionRules.ChainExactly | scripts/clear_trigger.py:437-1004 | How a chain ends: skipped, not cleared, no fresh session, stuck at a command or complete, each if and only if |
| InjectionRules.ChainLeavesExactly | scripts/clear_trigger.py:962-998 | What it leaves on disk: nothing new unless the clear goes through, then the resume state, consumed by a completed goal |
| ClearChain.PhaseBInOrder | scripts/lib/terminal_trigger.py:1796-1810 | Its keystrokes are those of its commands one after another, each submitted under verification; the one it is stuck at pressed no Enter and was the last |
| InjectionRules.PhaseBExactly | scripts/lib/terminal_trigger.py:1796-1810 | Complete if and only if every command goes through, stuck at the first that does not |
| ClearChain.StateDir.RunPhaseB | scripts/lib/terminal_trigger.py:1796-1810 | The bootstrap types its commands in order, stops at the first that fails, and writes nothing |
| ClearChain.NothingBeforeTheEnter | scripts/clear_trigger.py:492-500 | Without an Enter on the clear the directory is untouched (short of a raising callback) and nothing more is typed; a chain refused the lock does nothing at all |
| ChainLock.OneChainAtATime | scripts/clear_trigger.py:454-468 | In every interleaving of any number of chains, deaths included, exactly the lock's holder is past its question and not over |
| ChainLock.EachTypesItsOwn | scripts/clear_trigger.py:1000-1004 | In every interleaving what a chain types is a beginning of what its own run types alone |
| ChainLock.ChainsTakeTurns | scripts/clear_trigger.py:454-468 | No chain's keys ever stand between two of another's: one unbroken block for each |
| ChainLock.LoneChainRunsThrough | scripts/clear_trigger.py:1000-1004 | A chain that finds the lock free and is left alone types all it has to, and frees the lock then and not earlier |
| ChainLock.SecondChainTypesNothing | scripts/clear_trigger.py:454-468 | A chain that asks while another is pending ends as a refused run does and never types a key, then or later |
| ClearChain.TheLifelineIsKept | scripts/clear_trigger.py:962-998 | After the Enter the resume state stays, whatever fails later; only a completed goal bootstrap consumes it; no bootstrap key before a fresh session |
| ClearChain.ChainKeepsMarked | scripts/clear_trigger.py:333-347 | However the chain ends, flag implies time |
| Singleflight.LockFile.Acquire | scripts/external_handoff_clear.py:702-726 | Alone with the file: already running exactly when a readable lock is young enough, else acquired |
| Singleflight.AtMostOneInside | scripts/external_handoff_clear.py:702-726 | Any number of processes, interleavings, deaths and failing stats: one inside at most, as long as no takeover removes a live holder's file |
| Singleflight.RobberyBreaks | scripts/external_handoff_clear.py:718-718 | That condition is needed: one such removal in a first try puts two inside |
| Singleflight.RobberyLetsNextIn | scripts/external_handoff_clear.py:718-718 | One in any try lets the next process to come in beside the victim |
| Singleflight.WhyRobbed | scripts/external_handoff_clear.py:711-718 | It takes a failed stat, a lock changed since it was examined, or a holder past the limit |
| Singleflight.StatAfterReleaseBreaks | scripts/external_handoff_clear.py:711-718 | A concrete run without deaths, delays or failing disks that puts two processes inside |
| Singleflight.DeadLockExpires | scripts/external_handoff_clear.py:702-726 | A killed holder's lock yields to a lone process if and only if it is older than the limit |
| Workload.FatalCheck | scripts/daemon.py:524-539 | The check that kills: past the deadline or asked to stop, at most one tick after the deadline |
| Workload.OnceExactly | scripts/daemon.py:524-554 | The first fatal check kills a process that has not ended by then and nothing is reported; any other is reported at its own end with its own code |
| Workload.RunWorkloadOnce | scripts/daemon.py:466-554 | Reported exactly when the process ends by its fatal check; otherwise killed there and nothing reported |
| Workload.RunWorkload | scripts/daemon.py:557-618 | The retry loop equals its specification |
| Workload.TotalTimeIsBounded | scripts/daemon.py:587-618 | Any attempts, exit times and codes: at most timeout + 1 + tick + 5 s |
| Workload.InnerCapBeatsWatchdog | scripts/daemon.py:3318-3318 | A child that gets to its single workload within 104 seconds is done before its watchdog can fire |
| Workload.RetriesOnlyFailures | scripts/daemon.py:587-618 | Only non-zero exits are retried, the last attempt's code is returned, and never a non-zero one while attempts and time were left |
| PluginBudget.PluginUpdates.Visited | scripts/daemon.py:4647-4656 | A pass that cannot read the failures file takes it for empty, and loses it with its first attempt |
| PluginBudget.PluginUpdates.Consume | scripts/daemon.py:4661-4759 | One pass over the queue, ended by a crash where it strikes |
| PluginBudget.PluginUpdates.RunRequest | scripts/daemon.py:4689-4745 | Attempt on disk before the run; taken back on contention or success, kept on failure or death |
| PluginBudget.KeysAreOwn | scripts/daemon.py:4700-4700 | Two eligible requests share an entry if and only if they are for one plugin |
| PluginBudget.OneExactly | scripts/daemon.py:4689-4745 | One request: who is eligible, who is held back, what is attempted, and the entry afterwards with its numbers |
| PluginBudget.OthersAreUntouched | scripts/daemon.py:4700-4745 | A request for one plugin changes neither another's entry nor whether that one is skipped |
| PluginBudget.ConsumeIsReplay | scripts/daemon.py:4700-4745 | A pass treats each plugin as if it were alone: its entry and history are a replay of its own eligible requests |
| PluginBudget.VisitExactly | scripts/daemon.py:4647-4656 | A readable file is used as it is; an unreadable one is lost exactly when some request is eligible |
| PluginBudget.VisitIsReplay | scripts/daemon.py:4647-4656 | A pass that loses the file is, for every plugin, a forgotten entry and then its own requests |
| PluginBudget.RunsAreReplays | scripts/daemon.py:4700-4745 | Across all crashes, restarts and lost files a plugin's attempts are one replay of its own history |
| PluginBudget.SixHoursAfterTwoFailures | scripts/daemon.py:4702-4714 | Over all passes in the order of time: an attempt for a plugin that two or more unsuccessful ones for it precede since its last success or held lock, or the loss of the file, starts six hours after the second of them, and after the last but one |
| PluginBudget.SkippedExactly | scripts/daemon.py:4702-4714 | After any such passes a request is skipped if and only if its own plugin's streak has reached two and six hours have not passed since the attempt that last made it even |
| PluginBudget.ContentionErasesStreak | scripts/daemon.py:4717-4727 | One held lock ends the streak: three unsuccessful attempts within three seconds |
| PluginBudget.LossCostsTwoAttempts | scripts/daemon.py:4647-4656 | A plugin held back after two failures is tried twice more, at once, after a loss of the file |
| IntegrityRepin.Repin.OnFire | scripts/daemon.py:3055-3102 | How each ending of a fire moves the counter, and that only the third decline tickets |
| IntegrityRepin.OneTicketPerLongEpisode | scripts/daemon.py:3076-3102 | Tickets equal the number of episodes with at least three declines, over any history whose file operations work |
| IntegrityRepin.TicketsExactly | scripts/daemon.py:3076-3102 | Whatever the file operations do: one ticket per long episode of the fires that took effect, and one more for every third decline whose write failed |
| LeaseMerge.Coordinator.ApplyLeases | scripts/daemon.py:3636-3668 | Exactly the claim-yielded chores plus those an unexpired lease owns; the first tick logs nothing |
| LeaseMerge.LogReplaysToPresent | scripts/daemon.py:3654-3668 | Replaying the log over the first tick's leases gives the present ones |
| LeaseMerge.MessagesAlternate | scripts/daemon.py:3650-3653 | Per chore the two messages alternate and the last one is its state |
| VersionSelect.Sorted | scripts/dispatcher-stub.py:215-218 | Every directory once, by stable insertion |
| VersionSelect.SortedAscends | scripts/dispatcher-stub.py:56-62 | Ascending: of any two places the earlier is the older version, ties in directory order |
| VersionSelect.OlderExactly | scripts/dispatcher-stub.py:215-218 | Older means: the keys agree up to a component and there the first ends or is smaller as a number, or they are equal and the directory lists it first |
| VersionSelect.KeyExactly | scripts/dispatcher-stub.py:56-62 | A name that is all numbers has those as its key, in order and in full; any other has minus one |
| VersionSelect.OddNamesAreOldest | scripts/dispatcher-stub.py:56-62 | Such a name is older than every proper version |
| VersionSelect.VerifyVersion | scripts/dispatcher-stub.py:65-112 | Raises on a manifest nested past the recursion limit; else clean exactly when no entry is disproved or raises, and otherwise what the first such entry does |
| VersionSelect.PinRejects | scripts/dispatcher-stub.py:193-209 | Raises on a pin too deeply nested; else looks only at a pin for this version, with a key and a manifest, raises on a MAC that is not ASCII, and rejects a differing one |
| VersionSelect.WalkDown | scripts/dispatcher-stub.py:231-258 | The loop newest first: it ends at the first acceptable or raising place, else at the first runnable one, remembered before the quarantine is asked |
| VersionSelect.Select | scripts/dispatcher-stub.py:212-263 | The newest acceptable version is chosen, failing that the newest runnable. Executes only that one; dies if and only if something raises before the choice or the chosen one cannot be executed; exits if and only if nothing raises and nothing runs |
| VersionSelect.UnopenableEntryKills | scripts/dispatcher-stub.py:99-104 | A manifest whose first entry names a file no system call can open ends the stub where it is looked at |
| VersionSelect.NonAsciiPinKills | scripts/dispatcher-stub.py:209-209 | So does a pin for a version that verifies, its MAC not ASCII |
| VersionSelect.AcceptableExactly | scripts/dispatcher-stub.py:65-209 | Accepted if and only if it runs, is not quarantined, every entry with a hash is there with that hash, and the pin agrees or has no opinion |
| VersionSelect.KillsExactly | scripts/dispatcher-stub.py:90-209 | A version ends the stub if and only if it is looked at and a text of it raises before anything else speaks against it |
| VersionSelect.RaisingTexts | scripts/dispatcher-stub.py:99-104 | Which texts raise, by code point |
| VersionSelect.DeepTextKills | scripts/dispatcher-stub.py:90-93 | A manifest nested past the parser's limit ends the stub where it is looked at, and so does such a pin |
| VersionSelect.NotExecutableKills | scripts/dispatcher-stub.py:250-251 | If the newest acceptable version cannot be executed nothing older is tried |
| VersionSelect.LosingQuarantineCanKill | scripts/dispatcher-stub.py:231-258 | Losing the quarantine can bring back a raising version it hid, and turn an execution into a death |
| VersionSelect.OtherLossesKillExactly | scripts/dispatcher-stub.py:134-209 | Losing manifest, key or pin makes a version raise if and only if the lost manifest had disproved it and the pin is too deeply nested |
| VersionSelect.UncertaintyNeverRejects | scripts/dispatcher-stub.py:134-209 | Losing manifest, key, pin or quarantine never turns an acceptable version into a rejected one |
| VersionSelect.UncertaintyNeverDowngrades | scripts/dispatcher-stub.py:212-263 | Nor does it make the newest acceptable version an older one |
| VersionSelect.EntryOrderIsIrrelevant | scripts/dispatcher-stub.py:95-112 | The verdict depends on the multiset of entries only, unless some disprove the version and others raise |
| VersionSelect.EntryOrderMatters | scripts/dispatcher-stub.py:95-112 | In that case two orders of the same entries end differently |
| CronStagger.StaggerOnlyShifts | scripts/arm_prepare.py:101-123 | A plain line, in whatever decimal digits, keeps its step, starts below it, and keeps its rate when the step divides the hour |
| CronStagger.StaggerIsIdempotent | scripts/arm_prepare.py:118-123 | Staggering twice is staggering once, and a line changes exactly if it is plain with a step from 1 to 60 |
| CronStagger.StepOfExactly | scripts/arm_prepare.py:76-76 | The plain lines: `*/`, a number and the four stars, perhaps with a final newline, and nothing else |
| CronStagger.ReadsBack | scripts/arm_prepare.py:122-123 | The rewritten text parses to the offset and the step meant |
| CronStagger.FiredMinutes | scripts/arm_prepare.py:101-123 | The minutes fired are the offset plus the first Count multiples of the step |
| CronStagger.EvenlySpread | scripts/arm_prepare.py:101-123 | Between floor and ceiling of 60/N fires an hour, the gap across the hour below 2N |
| CronStagger.ExactlyPeriodic | scripts/arm_prepare.py:101-123 | When N divides 60 it fires at a minute exactly when that minute leaves the offset modulo N |
| GoalSanitizer.SanitizedIsSafe | scripts/clear_trigger.py:141-156 | Every result: at most 4000 printable characters, no `@`, single spaces, no leading slash, no janitor marker in any case |
| GoalRules.UnchangedExactly | scripts/clear_trigger.py:141-156 | A goal is typed word for word if and only if it may be typed as it stands and holds no paste marker |
| GoalRules.SpellAtExactly | scripts/clear_trigger.py:152-152 | Every `@` is spelled out, everything else stays |
| GoalRules.SqueezeExactly | scripts/clear_trigger.py:153-153 | Whatever whitespace stands between words becomes one space, and none is left at the ends |
| GoalRules.DropPasteAt | scripts/clear_trigger.py:154-154 | Up to the first paste marker all stays, the marker goes, the rest is treated likewise |
| GoalRules.MarkerExactly | scripts/clear_trigger.py:155-155 | What counts as a janitor marker, letter by letter |
| GoalSanitizer.PasteFreeExactly | scripts/clear_trigger.py:136-156 | Free of paste markers if and only if the part of the printable text that fits holds no marker standing around another |
| GoalSanitizer.PasteMarkersCanReform | scripts/clear_trigger.py:154-154 | A goal whose deletion forms a new paste marker |
| GoalSanitizer.BootstrapIsTwoLines | scripts/clear_trigger.py:159-184 | Always the arm line and then one resume line or one safe goal line |
| GoalRules.BootstrapExactly | scripts/clear_trigger.py:159-184 | The goal line if anything of a goal is left, the resume line only otherwise |
| ScriptJson.SafeAndFaithful | scripts/fleet_status.py:1174-1186 | For every value the page text holds no angle bracket or separator, reads back as the value's own tokens, and as no other value |
| ScriptJson.ReadOneWay | scripts/fleet_status.py:1181-1181 | Values with the same tokens, whatever may follow a value, are the same value |
| ScriptJson.EscapeKeepsTokens | scripts/fleet_status.py:1180-1186 | Escaping changes no token of any text that lexes, next to escaped backslashes included |
| ScriptJson.EscapeIsPointwise | scripts/fleet_status.py:1180-1186 | The four replacements in a row do not disturb each other |
| ScriptJson.DumpReads | scripts/fleet_status.py:1181-1181 | A dump reads as its value's tokens, nothing forbidden between its strings |
| RetryLoop.LastAttempt | scripts/cpv_network_resilience.py:208-260 | The first attempt that is not retried, or the last allowed |
| RetryLoop.RunWithRetry | scripts/cpv_network_resilience.py:160-278 | Runs within budget, sleeps one fewer than runs, result the last attempt's; never ends without one |
| RetryLoop.FirstSuccessWins | scripts/cpv_network_resilience.py:208-250 | The result is attempt k's success iff k is the first and no permanent failure came earlier |
| RetryLoop.TimeoutPropagates | scripts/cpv_network_resilience.py:219-240 | A timeout escapes iff every attempt was retryable and the last one timed out |
| RetryLoop.IsTransient | scripts/cpv_network_resilience.py:107-124 | A permanent match beats any transient one, wherever either stands in the lists |

## Left out

- ResumeState.WriterCrashesSafely: reads the clock once for all writes of the callback, where the source reads it before each.
- CronStagger.StaggerOnlyShifts: the interpreter's refusal to convert more than 4300 digits is left out.
- ScriptJson.SafeAndFaithful: strings are of Unicode scalar values; a lone surrogate cannot be written to the page file (scripts/fleet_status.py:1284-1285).
- RecoveryFleet.KeptApartExactly: on a file system that ignores case, slugs that differ in case alone collide too.
- Workload.TotalTimeIsBounded: spawns and heartbeat ticks take no time.
- Singleflight.AtMostOneInside: a process whose `open` fails for another reason than an existing file is a process that dies.
- ClearChain.InjectIsVerified: a clear of our own text is one act however many passes it takes, and the crumb written before typing is not modelled.
- The ESC that dismisses a prompt left unattended (scripts/daemon.py:2165-2241): it leaves the ladder's record as it is.
- The cancels of the clear chain other than the recovery veto (user back, agents live, cache warm, pane policy, `came_back_since`) enter only as one verdict per round.
- Tasks that run on their own thread, the second thread's rotation ESC and its dedupe, stamps shared between two daemon eras, and the due-pass summary log.
- What pane policy, host pressure, account usage and fleet diagnosis decide: only the answers enter.
- Summary holds' expiry, `cleared_session_key` and `pending_summary_key`, the concision check of handoffs, and grouping rows by root: settled by one branch or one loop each.
- Log texts, notification wording, HTML, command-line parsing, subprocess and terminal plumbing.
