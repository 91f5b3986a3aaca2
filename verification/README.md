# Verified model of the VM-Harness state components

This project models the stateful components behind the VM-Harness GUI and its
CI runner, and proves what each of them keeps over whole runs:

- the tiered metrics store, its timestamps as text, and its alert log
  (`IsoTime`, `MetricTiers`, `MetricRuns`, `Alerts`, `MetricsStore`);
- the write-ahead-logged application state with crash recovery (`AtomicState`,
  `AtomicStateStore`);
- the multi-VM manager: ports, resource limits and process lifecycle
  (`MultiVM`, `MultiVMManager`);
- the audit log with rotation (`AuditLog`), the credential store with its name
  index (`CredentialStore`), the QMP bridge manager (`QmpBridge`);
- the fallback YAML loader (`YamlLoader`) and the CI track runner (`Pipeline`).

`Prelude` and `Text` hold shared helpers. `dafny verify dfyconfig.toml` checks
everything.

Each component has the same shape. A datatype holds its state, one function
per operation gives the state afterwards, `Run` folds a sequence of operations,
and the main lemmas speak about every run. A class with the component's own
fields then performs the operations in place; each method's `ensures` equates
its new contents with the operation's function. What the outside world does
(ports in use, processes dying, disk errors, crashes, new ids, the clock) comes
in as operations or parameters.

## Where the code does less than it says

The properties below fail for the code as written. Each bullet names the lemma
with the exact condition under which the property holds and, after "shown by",
the lemma with a concrete run or input on which it fails.

- Downsampling compares timestamp texts, and `...:05.5Z` sorts before `...:05Z`.
  After the last run of a schedule tiers depend on that run's time only, whatever
  was inserted and when, exactly when no earlier run is later as a text
  (`MetricRuns.ExactIffLatest`; shown by `MetricRuns.LostSample`). By a clock that
  does not go back, that fails only for a last run with a fraction after a run at
  the whole second it belongs to (`MetricRuns.SafeByTheClock`).
- "Prunes raw data older than 24h": for the same reason a sample older than that
  stays exactly when its time is the whole second in which the window begins
  (`MetricRuns.OldSampleStays`), so the promise holds for all samples exactly
  when the run happens at a whole second (`MetricRuns.RawRetention`; shown by
  `MetricRuns.OverdueSample`). The 7 and 30 day limits hold strictly
  (`MetricRuns.BucketRetention`).
- `duration_sec` is documented as the time a condition must hold before an alert
  fires, and `evaluate_alerts` never reads it: a rule fires where its condition
  begins to hold, so the promise holds over all histories exactly for durations
  of at most 0 (`Alerts.DurationIsIgnored`; shown by `Alerts.FiresAtOnce`).
- "All-or-nothing and recoverable from any crash" (the header of
  `gui/atomic_state.py`) holds for set, update and delete under crashes between
  disk steps (`AtomicState.AllOrNothing`), and for a single interrupted append
  (`AtomicState.CutCallWhole`). It does not hold for a snapshot restore unless one
  state covers the other (`AtomicState.RestoreAllOrNothing`; shown by
  `AtomicState.RestoreWitness`), nor for updates behind a line that does not parse
  or lacks its newline, unless the lines before it are empty states and it says
  nothing new itself (`AtomicState.BlockedAllOrNothing`; shown by
  `AtomicState.TornWitness`).
- An append that lost only its newline is replayed, but the line recovery appends
  next joins it and neither parses any more. Interrupting recovery is harmless
  exactly unless the log ends in such a line and the line says something new
  (`AtomicState.RecoveryRestartable`; step by step `AtomicState.RecoverOnce`;
  shown by `AtomicState.UnendedWitness`).
- A commit that an I/O error stops is recovered neither as the state before it
  nor as the one committed exactly when the two are overlaid and neither covers
  the other; behind the replace it is the lines left in the WAL that are overlaid
  (`AtomicState.CommitWholeIff`; shown by `AtomicState.DeleteMixed`). A deleted
  key is then back exactly when a line left in the WAL mentions it
  (`AtomicState.DeleteUnderErrors`; shown by `AtomicState.DeletedKeyReturns`).
- `update_vm` checks no limit: the caps survive every update exactly when the VM
  is tracked (`MultiVM.UpdateSafeIffTracked`), and a given one exactly when the VM
  is tracked or the last values fit beside all other VMs
  (`MultiVM.UpdateInCapsIff`; shown by `MultiVM.LimitExceeded`).
- `start_vm` leaves a live, tracked process behind status "error" exactly when
  the configuration cannot be written after the launch (`MultiVM.StartTells`;
  shown by `MultiVM.LiveInError`). Tracking itself holds in every run
  (`MultiVM.RunTracks`).
- A credential id that is already in use hides another credential
  (`CredentialStore.AddKeepsInverse`; shown by `CredentialStore.IdClash`). That
  cannot happen while the clock moves between adds
  (`CredentialStore.TickingGivesFreshIds`).
- `add` says that it updates the value of an existing name, and keeps the old one
  (`CredentialStore.AddTakesEffect`; shown by `CredentialStore.OldValueStays`).
- A token that does not open is meant to show as "[decryption failed]"; the
  handler names a module that was never imported, so `get` raises, for every name
  in a store that is not empty and was filled under another key
  (`CredentialStore.LookupsAnswer`; shown by `CredentialStore.WrongKeyWitness`).
- The credential file is written in place: a save cut short after the truncation
  leaves no credentials to the next process, unless the old or the new ones were
  none (`CredentialStore.SaveAllOrNothing`; shown by `CredentialStore.LostStore`).
- The fallback YAML loader never goes back to an outer dictionary before the next
  header of indent 0 or 2: behind a key without a value, scalars land under that
  key whatever their own indent (`YamlLoader.NestsRead`, for every indent; shown
  by `YamlLoader.DedentIgnored`, the shape of `ci/config.yaml`).
- In switch mode `add_vm` is said to keep the address for lazy creation and drops
  it: a switch without an address finds a bridge exactly when the VM has one
  already (`QmpBridge.SwitchLeavesOne`; shown by `QmpBridge.AddressForgotten`).
- Sequential and parallel pipelines agree exactly when some requested track is
  available and no available one raises (`Pipeline.SequentialVersusParallel`;
  shown by `Pipeline.ModesDisagree`).

## Model

| member | source | states |
|---|---|---|
| `IsoTime.RoundTrip` | gui/metrics_store.py:104-113 | for every timestamp, reading what was written gives the timestamp back |
| `IsoTime.TextOrder` | gui/metrics_store.py:366-396 | SQLite's order of two stored timestamps is the order of their integer sort keys |
| `IsoTime.TextOrderIsTimeOrder` | gui/metrics_store.py:310-315 | for instants in different whole seconds text order is chronological order |
| `IsoTime.TextOrderMisorders` | gui/metrics_store.py:366-396 | an earlier instant sorts later exactly when both lie in one second and it has no fraction |
| `IsoTime.BucketTextOrder` | gui/metrics_store.py:378-415 | comparing a minute or hour text (no "Z") with a cutoff is comparing its bucket key; a tie counts as older |
| `IsoTime.SameGroupText` | gui/metrics_store.py:381-411 | two timestamps have the same GROUP BY text, to the minute or to the hour, exactly when their keys lie in the same bucket |
| `IsoTime.KeyShift` | gui/metrics_store.py:366-366 | a cutoff a whole number of seconds back shifts the sort key by as many seconds |
| `IsoTime.DayIsADay` | gui/metrics_store.py:104-113 | the instant of a timestamp follows the calendar: one day later on it is 24 hours later, over the ends of months, leap years and centuries |
| `MetricTiers.GroupByKeepsTally` | gui/metrics_store.py:369-416 | any selection by metric and bucket sees the same count, minimum and maximum before and after grouping, and the same sum if all rows count one |
| `MetricTiers.GroupByKeys` | gui/metrics_store.py:378-381 | an aggregate row carries a bucket start and stands for a row of that metric and bucket |
| `MetricTiers.GroupByDistinct` | gui/metrics_store.py:381-381 | one aggregation never makes two rows for a metric and bucket |
| `MetricTiers.GroupByBounded` | gui/metrics_store.py:373-376 | the unweighted average of a group lies between its minimum and maximum |
| `MetricTiers.GroupByMeans` | gui/metrics_store.py:369-416 | a group's average is the unweighted mean of the averages of its rows, whatever they count |
| `MetricTiers.RunMeans` | gui/metrics_store.py:368-429 | each row a run adds to the 1-minute or 1-hour table carries the mean of the averages of the rows of its metric and bucket that it replaces |
| `MetricTiers.MinutesForeseen` | gui/metrics_store.py:366-396 | a run does not change what a run at the same or a later text will put into the 1-minute table, for every selection by metric and minute |
| `MetricTiers.HoursForeseen` | gui/metrics_store.py:398-442 | nor, in counts and extremes and through both aggregation levels, what it will put into the 1-hour table |
| `MetricTiers.RawForeseen` | gui/metrics_store.py:386-396 | nor what it will leave in the raw table |
| `MetricTiers.RollFulfils` | gui/metrics_store.py:364-444 | a run puts into each table what was foreseen for it |
| `MetricRuns.RunForetells` | gui/metrics_store.py:352-444 | over every run, in whatever order its downsampling times come, each sample counts for a later run in the tier its own time and that run's time give |
| `MetricRuns.ScheduleIndependence` | gui/metrics_store.py:352-444 | right after a downsampling run that no earlier one follows as a text, each sample is in the tier its own time and the run's time give, and nowhere else |
| `MetricRuns.CellsRefineHistory` | gui/metrics_store.py:369-416 | per metric and minute the rows' count, minimum, maximum and weighted sum are those of the samples; per hour count, minimum and maximum |
| `MetricRuns.CellsRefineSamples` | gui/metrics_store.py:231-442 | from the samples given to the tables: per metric the raw rows of a time, the 1-minute rows of a minute and the 1-hour rows of an hour have the count, minimum, maximum and (but for hours) sum of the values whose tier that is, with the windows of 24 hours, 7 and 30 days |
| `MetricRuns.SchedulesAgree` | gui/metrics_store.py:352-444 | two schedules over the same samples leave the same raw table and indistinguishable aggregates |
| `MetricRuns.ExactIffLatest` | gui/metrics_store.py:366-396 | for a schedule of any length, the tiers are right after its last run, whatever is inserted and when, exactly if no earlier run is later as a text |
| `MetricRuns.LostSample` | gui/metrics_store.py:366-396 | the concrete history of such a schedule that goes wrong otherwise |
| `MetricRuns.UnsafePairs` | gui/metrics_store.py:104-105 | the offending pairs: same second, the first time whole, the second with a fraction |
| `MetricRuns.SafeByTheClock` | gui/metrics_store.py:366-396 | by a clock that does not go back the schedule is safe unless the last run has a fraction and an earlier one falls on its whole second |
| `MetricRuns.NothingLost` | gui/metrics_store.py:364-442 | every sample is counted exactly once over the three tables and the pruned samples |
| `MetricRuns.RowsBounded` | gui/metrics_store.py:373-410 | in every run each row has minimum <= average <= maximum |
| `MetricRuns.RollTwice` | gui/metrics_store.py:364-442 | a second run at the same time changes no table, whatever the tables hold |
| `MetricRuns.OldSampleStays` | gui/metrics_store.py:366-396 | a raw sample older than 24 hours stays exactly when its time is the whole second in which the window begins |
| `MetricRuns.RawRetention` | gui/metrics_store.py:355-396 | no raw sample older than 24 hours stays, whatever the table held, exactly when the run happens at a whole second |
| `MetricRuns.OverdueSample` | gui/metrics_store.py:355-396 | a sample of second s is still raw 24 hours and half a second later |
| `MetricRuns.BucketRetention` | gui/metrics_store.py:398-442 | over every run each 1-minute row that stays starts strictly within the last 7 days, each 1-hour row within the last 30 |
| `MetricRuns.PrunedAreCounted` | gui/metrics_store.py:386-396 | the number of raw rows pruned is the summed count of the 1-minute rows created |
| `MetricRuns.CarriedOut` | gui/metrics_store.py:432-444 | a run whose 30 day cutoff is not representable changes nothing; any other is carried out |
| `MetricsStoreObject.MetricsStore.constructor` | gui/metrics_store.py:125-137 | a new store is the empty run |
| `MetricsStoreObject.MetricsStore.InsertSample` | gui/metrics_store.py:231-250 | an unknown metric is refused and nothing changes; otherwise one raw row and the next row id |
| `MetricsStoreObject.MetricsStore.InsertMany` | gui/metrics_store.py:252-273 | all samples or none |
| `MetricsStoreObject.MetricsStore.Downsample` | gui/metrics_store.py:352-447 | the tables become the rolled ones, the report balances the row counts, no row before its cutoff text stays, and an unrepresentable cutoff rolls everything back |
| `MetricsStoreObject.MetricsStore.Roll` | gui/metrics_store.py:364-442 | the transaction statement by statement |
| `MetricsStoreObject.MetricsStore.AddAlertRule` | gui/metrics_store.py:475-500 | both kinds of refusal, else a rule in state "ok" with the next id |
| `MetricsStoreObject.MetricsStore.UpdateAlertRule` | gui/metrics_store.py:502-525 | unknown keywords are skipped; with none left nothing is written and the answer is false |
| `MetricsStoreObject.FieldsConcat` | gui/metrics_store.py:504-515 | the allowed keywords in their order, and nothing else, are written |
| `MetricsStoreObject.AcceptedNames` | gui/metrics_store.py:482-485 | the four metrics and the five conditions accepted, each of which can be met |
| `MetricsStoreObject.MetricsStore.DeleteAlertRule` | gui/metrics_store.py:527-531 | exactly the rule with this id goes; the log stays |
| `MetricsStoreObject.MetricsStore.EvaluateRule` | gui/metrics_store.py:567-605 | one rule fires, resolves or stays, and the log gets the same event |
| `MetricsStoreObject.MetricsStore.EvaluateAlerts` | gui/metrics_store.py:556-607 | all enabled rules with a value are evaluated once and the returned events are those logged |
| `Alerts.EvalOne` | gui/metrics_store.py:566-605 | an evaluation treats every rule on its own |
| `Alerts.EvaluationDecides` | gui/metrics_store.py:566-621 | in every run an evaluation leaves a rule "firing" exactly when it is enabled, has a value and the value compares with the threshold as its condition says; otherwise "ok" or as it was |
| `Alerts.EventsJustified` | gui/metrics_store.py:566-621 | over every run each event comes from an evaluation and carries the value and the rule's settings then; it is a firing exactly when the value meets the condition, spelled out as comparisons, and the rule was not "firing" |
| `Alerts.EvaluationInOrder` | gui/metrics_store.py:566-607 | the events of an evaluation stand in the order of the rules |
| `Alerts.AddEffect` | gui/metrics_store.py:475-500 | a new rule has what was asked for and the next id; all others are as they were |
| `Alerts.EditEffect` | gui/metrics_store.py:502-531 | an update reaches only the rule with its id, a delete removes only that |
| `Alerts.LastChangeWins` | gui/metrics_store.py:502-525 | each column has the last value set, and one that is not set the value it had |
| `Alerts.EdgeLog` | gui/metrics_store.py:556-621 | over every run a rule's log is the rising and falling edges of its evaluated condition, each at its time, and last_state is the current level |
| `Alerts.EdgeBalance` | gui/metrics_store.py:573-605 | among edges, fired minus resolved is the current level |
| `Alerts.FiringBalance` | gui/metrics_store.py:556-607 | fired minus resolved is 0 or 1, and 1 exactly when the existing rule's last_state is "firing" |
| `Alerts.FiringsAreRisings` | gui/metrics_store.py:573-588 | the log's firings are exactly the evaluations at which the condition begins to hold |
| `Alerts.HonouredIff` | gui/metrics_store.py:76-76 | in a given history every firing had held for the rule's duration exactly when no firing had a positive one |
| `Alerts.DurationIsIgnored` | gui/metrics_store.py:556-607 | that promise holds over all histories of a duration exactly when the duration is at most 0 |
| `Alerts.FiresAtOnce` | gui/metrics_store.py:556-607 | a rule of any duration fires at its first evaluation |
| `Alerts.RunKeyed` | gui/metrics_store.py:199-210 | rule ids stay distinct and at most the counter |
| `Alerts.IdsGrow` | gui/metrics_store.py:199-200 | the id counter never goes back |
| `AtomicState.CommitStages` | gui/atomic_state.py:76-93 | state file and WAL after each of the five disk steps of a commit |
| `AtomicState.CommitOutcome` | gui/atomic_state.py:31-93 | what is recovered over whole lines for each step a commit of any state may stop at: behind the replace, what old lines say comes back where the new state says nothing |
| `AtomicState.CoveringCommit` | gui/atomic_state.py:76-93 | committing a state that covers all keys on disk takes effect for recovery at the WAL append |
| `AtomicState.CorruptFile` | gui/atomic_state.py:33-51 | a state file that does not parse counts as none; the log is replayed all the same |
| `AtomicState.RecoverOnce` | gui/atomic_state.py:31-51 | from any disk, whether an opening interrupted after a given step leaves to the next one what it found |
| `AtomicState.RecoveryRestartable` | gui/atomic_state.py:31-51 | from any disk, recovery interrupted any number of times ends in what the first would have produced, exactly unless the log ends in a line that lacks its newline and says something new |
| `AtomicState.UnendedWitness` | gui/atomic_state.py:31-84 | a run in which an interrupted recovery loses the set it had found |
| `AtomicState.AllOrNothing` | gui/atomic_state.py:31-93 | over every run of set, update and delete with crashes between any two disk steps, recovery yields the logical state in which each call counts wholly or not at all |
| `AtomicState.InterruptedCall` | gui/atomic_state.py:57-93 | reopening after an interrupted call gives the state before or after it: after once the file is replaced, for set and update once the line is appended |
| `AtomicState.CutCallWhole` | gui/atomic_state.py:57-84 | a call whose append is cut short counts wholly or not at all: a set or update that lacks only the newline has taken effect, any other has not |
| `AtomicState.ReadsLastWrite` | gui/atomic_state.py:53-70 | a get in a running process, whatever crashes came before, gives what the last call that counted wrote to the key, none if that was a delete |
| `AtomicState.MergeReplay` | gui/atomic_state.py:57-93 | with set and update only, errors swallowed at any step and lines piling up, recovery gives the last state whose line reached the WAL |
| `AtomicState.RunWhole` | gui/atomic_state.py:76-93 | in every run without interrupted appends, errors and restores included, all lines of the WAL are whole |
| `AtomicState.CommitWholeIff` | gui/atomic_state.py:76-93 | over whole lines, whatever memory and disk hold: exactly when a commit stopped at a given step is recovered as the state before it or the one committed |
| `AtomicState.DeleteUnderErrors` | gui/atomic_state.py:67-93 | after a delete stopped at a given step the key is back exactly when it was on disk before the replace, or behind it when a line mentions it; behind it the new state is recovered exactly when it has all keys the lines mention |
| `AtomicState.DeleteInRun` | gui/atomic_state.py:67-93 | the state recovered after such a delete, over every run |
| `AtomicState.DeleteHalfApplied` | gui/atomic_state.py:67-93 | for any memory and disk, a stopped delete is recovered as neither the state before nor the one after it exactly when, before the replace, each of the two says something the other does not, or behind it the lines mention a key the new state lacks and do not bring back the old state |
| `AtomicState.DeletedKeyReturns` | gui/atomic_state.py:67-93 | a run after which a deleted key is back |
| `AtomicState.DeleteMixed` | gui/atomic_state.py:67-93 | a run after which a set is recovered without the delete that followed it |
| `AtomicState.RestoreAllOrNothing` | gui/atomic_state.py:104-115 | over any whole lines, a restore stopped anywhere is all or nothing exactly when the snapshot has all keys on disk, or says nothing new and the lines in the log stay within it or make up for what it omits |
| `AtomicState.RestoreWitness` | gui/atomic_state.py:104-115 | a run after which a restore is recovered as the union of both states |
| `AtomicState.SnapshotRoundTrip` | gui/atomic_state.py:95-115 | whatever happens between, restoring a snapshot brings back in memory and on disk the state it was created from |
| `AtomicState.BlockedAllOrNothing` | gui/atomic_state.py:40-51 | behind a line that does not parse or lacks its newline, updates are all or nothing exactly when the lines before it are empty states and it says nothing new itself |
| `AtomicState.MixedUpdate` | gui/atomic_state.py:76-93 | the update that ends up half applied when an earlier line says something |
| `AtomicState.LostLine` | gui/atomic_state.py:76-93 | the update behind which an unfinished line is lost |
| `AtomicState.TornWitness` | gui/atomic_state.py:40-93 | a torn append after which an update is recovered half applied |
| `AtomicStateStore.Store.constructor` | gui/atomic_state.py:31-51 | opening replays the WAL and commits, unless a line does not parse |
| `AtomicStateStore.Store.Commit` | gui/atomic_state.py:76-93 | the five disk steps, stopped after any of them |
| `AtomicStateStore.Store.Set` | gui/atomic_state.py:57-60 | memory and disk after a set whose commit stops anywhere |
| `AtomicStateStore.Store.Update` | gui/atomic_state.py:62-65 | the same for update |
| `AtomicStateStore.Store.Delete` | gui/atomic_state.py:67-70 | the same for delete |
| `AtomicStateStore.Store.RestoreSnapshot` | gui/atomic_state.py:104-115 | a missing or corrupt snapshot changes nothing; otherwise its state is committed |
| `MultiVM.LeastFreePort` | gui/multi_vm.py:289-307 | the search returns the least free port at or above the counter, at most max(counter, 65000), and fails only when all of those are busy |
| `MultiVM.PlacedFacts` | gui/multi_vm.py:327-371 | what add_vm does to configurations, counters and processes, also when it fails after allocating |
| `MultiVM.RefusedAdd` | gui/multi_vm.py:327-371 | a refused add leaves all configurations; an accepted one adds exactly the new name |
| `MultiVM.AddAcceptedIff` | gui/multi_vm.py:327-368 | add_vm accepts a VM exactly when its name is made of the allowed characters and new, there are fewer than 16 VMs, its RAM and CPUs (4096 MB and 2 unless given) fit into 65536 MB and 32 beside all others, its ports can be allocated and its disk is there |
| `MultiVM.AcceptedAsAsked` | gui/multi_vm.py:349-371 | an accepted VM has what was asked for, the defaults, and allocated ports where 0 was given |
| `MultiVM.TrackingNext` | gui/multi_vm.py:311-566 | every operation, failed saves and processes that outlive a kill included, and any exit, keeps track of the processes |
| `MultiVM.RunTracks` | gui/multi_vm.py:311-566 | over every run only configured VMs are tracked, each by its own process, and no live process is untracked |
| `MultiVM.TellingNext` | gui/multi_vm.py:311-566 | every operation but a status edit and a start that cannot be saved keeps the status of live VMs honest |
| `MultiVM.RunTells` | gui/multi_vm.py:311-566 | over every run without those a live VM says "running" or "paused" and carries the pid of its process |
| `MultiVM.StartTells` | gui/multi_vm.py:445-481 | a start keeps that exactly unless it launches a process and then fails to save |
| `MultiVM.StartEffect` | gui/multi_vm.py:445-481 | a start succeeds exactly when the VM is configured, not live, launched and saved; then it lives as a process no VM had, says "running", carries that pid and no error; what a failed or unsaved launch leaves; all else is unchanged |
| `MultiVM.StartedRuns` | gui/multi_vm.py:445-481 | over every run a successful start leaves the VM running |
| `MultiVM.StopEffect` | gui/multi_vm.py:483-521 | a stop raises exactly when the process outlives the kill; otherwise the process is dead and forgotten, the status "stopped", the pid gone and all else unchanged |
| `MultiVM.RemoveEffect` | gui/multi_vm.py:373-393 | when a remove is refused or raises, and that otherwise VM and process are gone and all else is unchanged |
| `MultiVM.PollEffect` | gui/multi_vm.py:730-742 | what one look does to a live, paused, dead, untracked or stopped VM, and that all else is unchanged |
| `MultiVM.CheckEffect` | gui/multi_vm.py:552-566 | asking whether a VM runs forgets it exactly when it is tracked and dead |
| `MultiVM.PauseResumeEffect` | gui/multi_vm.py:523-542 | a pause succeeds exactly for a live VM, a resume exactly for one that says "paused"; only the status changes |
| `MultiVM.LiveInError` | gui/multi_vm.py:462-481 | the run that shows it: a live tracked process in status "error" |
| `MultiVM.PollingTellsTruth` | gui/multi_vm.py:730-742 | from any state, with processes exiting during the poll: afterwards "running" implies tracked, a live VM says "running" or "paused", and a tracked one lives or exited after its turn |
| `MultiVM.PauseThenResume` | gui/multi_vm.py:523-542 | pausing a live VM and resuming it leaves it running with its process |
| `MultiVM.UpdateKeepsResources` | gui/multi_vm.py:404-421 | updating a tracked VM changes no RAM, CPU or port field of any VM |
| `MultiVM.LastUpdateWins` | gui/multi_vm.py:404-421 | each field has the last value that could be written to it, and any other the value it had |
| `MultiVM.ColdFieldsStay` | gui/multi_vm.py:414-416 | on a tracked VM no other field is written |
| `MultiVM.UpdateSafeIffTracked` | gui/multi_vm.py:414-418 | the caps survive every list of updates exactly when the VM is tracked |
| `MultiVM.UpdateInCapsIff` | gui/multi_vm.py:395-424 | one update keeps the caps exactly when the VM is tracked or unknown, or its last RAM and CPU values fit beside all other VMs |
| `MultiVM.LimitExceeded` | gui/multi_vm.py:414-418 | a run past the RAM cap: a VM is added and edited while stopped |
| `MultiVM.RunInCaps` | gui/multi_vm.py:337-424 | VM count, total RAM and total CPUs stay within the global caps throughout a run exactly when each update of an untracked VM fits |
| `MultiVM.PortsDistinct` | gui/multi_vm.py:289-307 | over a manager's life the allocated QMP ports strictly increase, and so do the SSH ports, failed adds included |
| `MultiVM.AddedCarriesPorts` | gui/multi_vm.py:353-363 | a VM accepted with port 0 carries the port taken for it |
| `MultiVMManager.Total` | gui/multi_vm.py:341-345 | the loop computes the sum over all configured VMs |
| `MultiVMManager.Manager.constructor` | gui/multi_vm.py:245-250 | counters at their bases, nothing tracked |
| `MultiVMManager.Manager.AllocateQmpPort` | gui/multi_vm.py:289-297 | the search result; the counter moves only on success |
| `MultiVMManager.Manager.AllocateSshPort` | gui/multi_vm.py:299-307 | the same for SSH |
| `MultiVMManager.Manager.CheckLimits` | gui/multi_vm.py:327-347 | passes exactly when name, count, RAM and CPU limits allow the VM |
| `MultiVMManager.Manager.AddVm` | gui/multi_vm.py:311-371 | the new contents and whether it was accepted |
| `MultiVMManager.Manager.RemoveVm` | gui/multi_vm.py:373-393 | refused for unknown names and, unless forced, for tracked VMs; otherwise stopped and removed, unless the stop raises |
| `MultiVMManager.Manager.UpdateVm` | gui/multi_vm.py:395-424 | only hot and limit fields are written on a tracked VM |
| `MultiVMManager.Manager.StartVm` | gui/multi_vm.py:445-481 | refused for a live VM; a launch is tracked, a failed launch is an error status, and so is a launch that cannot be saved, its process staying tracked |
| `MultiVMManager.Manager.StopVm` | gui/multi_vm.py:483-521 | the process is dead and forgotten and the status stopped; when the process outlives the kill the wait raises and nothing changes |
| `MultiVMManager.Manager.IsRunning` | gui/multi_vm.py:552-566 | the answer is whether the process lives; a dead one is forgotten |
| `MultiVMManager.Manager.PauseVm` | gui/multi_vm.py:523-531 | only a live VM is paused |
| `MultiVMManager.Manager.ResumeVm` | gui/multi_vm.py:533-542 | only a paused VM is resumed, live or not |
| `MultiVMManager.Manager.PollOne` | gui/multi_vm.py:733-742 | one name of the poll |
| `MultiVMManager.Manager.PollStatus` | gui/multi_vm.py:730-742 | the configured names are polled one by one in their order, with processes exiting before each look |
| `AuditLog.RotateOne` | gui/audit_log.py:238-258 | rotation keeps the newest entries of its type and all entries of other types |
| `AuditLog.LogRestoresBound` | gui/audit_log.py:171-220 | from any table, one log call of a type brings it back to its bound |
| `AuditLog.KeepsTheLast` | gui/audit_log.py:202-259 | over every run the rows of a type are exactly the last N logged since it was cleared |
| `AuditLog.ClearStep` | gui/audit_log.py:439-459 | clearing one type leaves the others; no type or an empty one clears everything |
| `AuditLog.IdsNeverReused` | gui/audit_log.py:131-132 | ids strictly increase down the table and the counter is the number of log calls ever made |
| `AuditLog.AuditLogger.constructor` | gui/audit_log.py:102-118 | the empty log with its bound |
| `AuditLog.AuditLogger.Write` | gui/audit_log.py:171-220 | insert, rotate, and return the entry with its id |
| `AuditLog.AuditLogger.RotateIfNeeded` | gui/audit_log.py:222-262 | the given type, or every type when the name is empty |
| `AuditLog.AuditLogger.Clear` | gui/audit_log.py:439-459 | the rows removed and their number |
| `CredentialStore.AddKeepsInverse` | gui/credential_store.py:184-199 | adding keeps the index exact precisely when the name is indexed under an id that is not empty or the empty id is used again, or the name is new and its id unused |
| `CredentialStore.RunRefines` | gui/credential_store.py:172-284 | with fresh ids, over every run the index is the inverse of the names and every lookup answers what a plain name-to-secret map would |
| `CredentialStore.TickingGivesFreshIds` | gui/credential_store.py:188-190 | if the clock moves between any two adds, the ids made from it and the count are never empty and never in use |
| `CredentialStore.IdClash` | gui/credential_store.py:188-199 | a run of generated ids, two adds in one tick and a delete between, after which a lookup answers with another credential |
| `CredentialStore.LookupUnderKey` | gui/credential_store.py:204-223 | over every run, opened under any key: absent names are absent, held names are found under the same key and raise under another |
| `CredentialStore.LookupsAnswer` | gui/credential_store.py:204-223 | no lookup raises exactly when the key is the one the store was filled under or the store is empty |
| `CredentialStore.WrongKeyWitness` | gui/credential_store.py:211-214 | a store of one credential whose lookup raises |
| `CredentialStore.AddTakesEffect` | gui/credential_store.py:179-188 | after an add the name is found, with the value given exactly when the name was new or had that value |
| `CredentialStore.OldValueStays` | gui/credential_store.py:179-188 | a second add whose value is dropped |
| `CredentialStore.LatestWins` | gui/credential_store.py:147-151 | after loading, a name's id is that of the last entry with the name |
| `CredentialStore.SaveThenLoad` | gui/credential_store.py:138-166 | loading what was saved, in any order, rebuilds the same entries and index |
| `CredentialStore.SaveOutcomes` | gui/credential_store.py:157-170 | the next process finds exactly what was saved if the file was written, even if its mode was not set; what was there before if it was not opened; nothing if it was cut short |
| `CredentialStore.RestartFinds` | gui/credential_store.py:138-284 | over every run, after a completed save the next process answers what a plain map held right after that call, until another save gets as far as opening the file |
| `CredentialStore.SaveAllOrNothing` | gui/credential_store.py:157-170 | a save leaves the old or the new credentials to the next process exactly when it is not cut short after truncating, or one of the two is empty |
| `CredentialStore.LostStore` | gui/credential_store.py:157-170 | a second credential saved on a full disk: the next process finds none |
| `CredentialStore.CredentialStoreObject.constructor` | gui/credential_store.py:138-155 | loads the file, or starts empty |
| `CredentialStore.CredentialStoreObject.Save` | gui/credential_store.py:157-170 | the file and what the next process reads from it for each way the write ends; an error is raised unless all of it succeeded |
| `CredentialStore.CredentialStoreObject.Add` | gui/credential_store.py:172-202 | an existing name is a no-op; a new one is stored and saved, and found by the next process if the save was complete |
| `CredentialStore.CredentialStoreObject.Lookup` | gui/credential_store.py:204-223 | absent, found or raised |
| `CredentialStore.CredentialStoreObject.Update` | gui/credential_store.py:225-235 | KeyError for an unknown name; else value, time and optionally description |
| `CredentialStore.CredentialStoreObject.Delete` | gui/credential_store.py:237-245 | no-op for an unknown name; else entry and index go together |
| `CredentialStore.CredentialStoreObject.ClearAll` | gui/credential_store.py:277-284 | nothing without confirmation |
| `QmpBridge.RunAccounted` | gui/multi_vm_qmp_bridge.py:356-422 | in every run, mode changes included, the live bridge threads are exactly the registered bridges |
| `QmpBridge.SwitchLeavesOne` | gui/multi_vm_qmp_bridge.py:385-422 | from any state, switching in switch mode leaves no other bridge, and tells when the VM's own is there |
| `QmpBridge.SwitchLeavesOneLive` | gui/multi_vm_qmp_bridge.py:385-422 | in any run, mode changes included, a switch in switch mode leaves the active VM's thread as the only live one, or none |
| `QmpBridge.RunSingle` | gui/multi_vm_qmp_bridge.py:331-422 | in a manager that keeps a mode other than "multi" the only bridge is the active VM's, and in a mode that is neither there is none |
| `QmpBridge.AtMostOneLive` | gui/multi_vm_qmp_bridge.py:318-320 | such a manager never has two live threads |
| `QmpBridge.SingleUnlessMulti` | gui/multi_vm_qmp_bridge.py:331-422 | for any text given as mode, that holds over all runs exactly when it is not "multi" |
| `QmpBridge.AddressForgotten` | gui/multi_vm_qmp_bridge.py:361-374 | a registered address is gone when the VM is switched to, and registering again raises |
| `QmpBridge.AddEffect` | gui/multi_vm_qmp_bridge.py:356-374 | a new name gets a fresh thread at its address in multi mode and a placeholder otherwise, a known bridge its new address, a placeholder an exception; nothing else changes |
| `QmpBridge.RemoveEffect` | gui/multi_vm_qmp_bridge.py:376-383 | registration and thread are gone, the active VM is reset if it was this one, nothing else changes |
| `QmpBridge.SwitchEffect` | gui/multi_vm_qmp_bridge.py:385-422 | an unknown name needs an address; the VM becomes active, in switch mode with its own bridge or a fresh one at the address given, in any other with nothing else changed |
| `QmpBridge.StopAllEffect` | gui/multi_vm_qmp_bridge.py:532-538 | in every run: no registration, no active VM, no thread |
| `QmpBridge.ModeEffect` | gui/multi_vm_qmp_bridge.py:350-354 | only the two mode names are taken, and no bridge is stopped or started |
| `QmpBridge.Manager.constructor` | gui/multi_vm_qmp_bridge.py:331-340 | no bridges, no active VM, any text as mode |
| `QmpBridge.Manager.SetModeByName` | gui/multi_vm_qmp_bridge.py:350-354 | any other mode name is refused |
| `QmpBridge.Manager.AddVm` | gui/multi_vm_qmp_bridge.py:356-374 | a repeat updates the address, fails on a placeholder; a new name is started or held back by mode |
| `QmpBridge.Manager.RemoveVm` | gui/multi_vm_qmp_bridge.py:376-383 | the bridge is stopped and the active VM reset |
| `QmpBridge.Manager.StopOthers` | gui/multi_vm_qmp_bridge.py:400-404 | all other bridges are stopped and nulled |
| `QmpBridge.Manager.SwitchToVm` | gui/multi_vm_qmp_bridge.py:385-422 | the new contents in either mode |
| `QmpBridge.Manager.StopAllVms` | gui/multi_vm_qmp_bridge.py:532-538 | every bridge stopped, nothing registered |
| `YamlLoader.CommentsIgnored` | ci/common.py:166-168 | blank and comment lines anywhere change nothing |
| `YamlLoader.SkippedIff` | ci/common.py:166-168 | the lines passed over are exactly the blank ones and those whose first character is a hash sign |
| `YamlLoader.NothingBefore` | ci/common.py:170-182 | nothing is read before the first header without an indent |
| `YamlLoader.NeverDetached` | ci/common.py:159-213 | for any text, the current dictionary stays inside the result |
| `YamlLoader.ClassifyShown` | ci/common.py:211-224 | every printable scalar reads back as itself |
| `YamlLoader.AnyCase` | ci/common.py:214-217 | a text is read as a boolean exactly when it is true or false in any case |
| `YamlLoader.ScalarSurvivesIff` | ci/common.py:154-239 | a scalar printed into a file is loaded back as itself exactly when it is printable |
| `YamlLoader.LoadedOneLine` | ci/common.py:164-224 | whatever the file says, no loaded text has a line break |
| `YamlLoader.HeaderLine` | ci/common.py:170-201 | a printed header is read as a header of its indent |
| `YamlLoader.PairLine` | ci/common.py:203-207 | a printed pair is split at its own colon |
| `YamlLoader.BareKeyLine` | ci/common.py:196-213 | a key without a value, behind any indent but 0 and 2, opens a dictionary under it in the current one, which becomes current |
| `YamlLoader.NestsRead` | ci/common.py:196-224 | below whatever dictionary is current, each key without a value puts exactly the scalars behind it under itself, leaves the rest, and the next such key nests inside it, at any indents |
| `YamlLoader.DedentIgnored` | ci/common.py:196-213 | a scalar behind a header of indent 4 lands in it although its indent is that of the header |
| `YamlLoader.ConfigRead` | ci/common.py:165-239 | the loader inverts canonical printing of every config of sections, subsections and keys nested in either to any depth, line by line |
| `YamlLoader.LinesRoundTrip` | ci/common.py:164-165 | whole lines written one after the other are the lines the file iterator gives |
| `YamlLoader.PrintThenLoad` | ci/common.py:154-239 | printing any such config to one text and loading that file gives the config's dictionary |
| `YamlLoader.FileRoundTrip` | ci/common.py:154-239 | the same with whole blank and comment lines put in anywhere, with Unix or Windows line ends |
| `YamlLoader.ParserInvertsPrinter` | ci/common.py:154-239 | the same for any file whose lines, blank and comment lines aside, are the printed ones |
| `YamlLoader.SectionFound` | ci/common.py:173-179 | a section is found whole under its name unless a later one repeats it |
| `YamlLoader.SubFound` | ci/common.py:185-194 | the same for a subsection, with what is nested in it |
| `YamlLoader.ScalarFound` | ci/common.py:204-224 | the same for a scalar |
| `YamlLoader.LoadLine` | ci/common.py:165-237 | the loop body, branch by branch |
| `YamlLoader.MinimalYamlLoad` | ci/common.py:154-239 | the loop over all lines of a file with any text |
| `Pipeline.StopAfter` | ci/desktop.py:281-285 | the shortest prefix ending in a failure, else all phases |
| `Pipeline.StatusOfRun` | ci/desktop.py:287-294 | failed exactly when some phase failed, skipped exactly when all were |
| `Pipeline.PhaseAt` | ci/desktop.py:244-261 | each phase has its place in the results; the five named ones run, any other is skipped |
| `Pipeline.TrackTells` | ci/desktop.py:287-294 | a track fails exactly when one of the named phases it runs fails, and is skipped exactly when each of those is |
| `Pipeline.FailFastSameStatus` | ci/desktop.py:244-294 | stopping at the first failure does not change the overall status |
| `Pipeline.RunTrack` | ci/desktop.py:204-299 | a disabled track is skipped; with fail-fast exactly that prefix runs; the status is that of all phases either way |
| `Pipeline.AggregateBySet` | ci/pipeline.py:262-275 | the pipeline status depends only on which statuses occur |
| `Pipeline.AggregateTells` | ci/pipeline.py:262-275 | when each status comes out |
| `Pipeline.CompletionOrderFree` | ci/pipeline.py:196-221 | every completion order gives the same pipeline status |
| `Pipeline.NeverMixed` | ci/pipeline.py:144-275 | the status is passed, failed or "no tracks" in both modes, or the sequential run raises, which it does exactly when an available track does |
| `Pipeline.StatusTells` | ci/pipeline.py:144-275 | what both modes answer in terms of which of the two tracks are requested, there, failed or raising |
| `Pipeline.SequentialVersusParallel` | ci/pipeline.py:144-221 | for tracks that end in a status or raise, both modes agree exactly when some requested track is available and no available one raises |
| `Pipeline.ModesDisagree` | ci/pipeline.py:144-221 | both ways to disagree: a track that raises, and no track available |
| `Pipeline.RunSequential` | ci/pipeline.py:144-168 | the status, or none when a track raises |
| `Pipeline.RunParallel` | ci/pipeline.py:170-221 | the status for a given completion order, a crash counting as failed |

## Left out

- `IsoTime.RoundTrip`: about texts the store writes; of other texts strptime also takes a space-padded day and non-ASCII digits, which `FromIso` refuses.
- `MetricRuns.CellsRefineHistory`: the 1-hour average is an unweighted average of averages in the code, so no sum over samples is claimed for 1-hour rows; what their average is says `MetricTiers.RunMeans`.
- `MetricRuns.ExactIffLatest`: says when the tables are wrong after a run that another one follows as a text, not what they hold then.
- `Alerts.EdgeLog`: runs without outside edits of `last_state` and without clearing the alert log.
- `AtomicState.AllOrNothing`: no append is cut short there; interrupted appends and snapshot restores have their own lemmas.
- `AtomicStateStore.Store.Commit`: stops between disk steps; appends cut short are events of the model's runs only.
- `AtomicState.SnapshotRoundTrip`: a snapshot is written beside its file and moved, so it is there whole or not at all; names that share a temporary file are not modelled.
- `MultiVM.PortsDistinct`: about allocated ports; ports given explicitly or loaded from disk are not checked by the code.
- `MultiVM.RunTells`: outside edits of status and pid, and starts whose save fails, are excluded (`MultiVM.StartTells`); a configuration file that cannot be written elsewhere is not modelled.
- `CredentialStore.RunRefines`: ids are fresh, as they are while the clock moves (`CredentialStore.TickingGivesFreshIds`); otherwise see `CredentialStore.IdClash`.
- `Pipeline.SequentialVersusParallel`: a track ends passed, failed or skipped, or raises; track names are the two the command line accepts; for any other name the parallel runner starts the android track.
- `Pipeline.RunTrack`: phase outcomes are a function of the phase name; the phase bodies are subprocess checks.
- `YamlLoader.MinimalYamlLoad`: dictionaries are addressed by path instead of by reference, and `float()` is an arbitrary predicate on texts.
- VM configurations are values in the manager's dictionary, so a configuration object held by a caller (`get_vm`) is not updated through the alias.
- Floating-point rounding: metric values and readings are reals; a NaN meets no alert condition, and SQLite refuses to log it. Sample metadata, row ids of aggregates and `get_history` (which reads one tier only).
- SQLite, threads and locks: tables are sequences and each locked call or transaction is one step.
- Fernet and key derivation: tokens are symbolic and open under the key that sealed them. JSON encoding: values are taken to survive it, and a proper prefix of a file does not parse.
- `AuditLogger.query`, `count` and CSV export: filters without state.
- `PerVMQMPBridge` connections and Qt signals; QEMU arguments, import and export of VM configs; config files on disk.
- `ci/android.py`: the same phase loop as `ci/desktop.py`. Report writing, dry runs and track detection.
- Unicode: white space, digits and letter case are those of ASCII.
- All PyQt panels, the chat engine, providers, Docker, Kubernetes and SSH code.
