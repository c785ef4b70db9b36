# tornas: model and proofs

tornas is a home media box: it downloads movies through a torrent session into a library with a
fixed disk budget, evicts the least recently used ones to make room, pauses by hand or when the
data disk disappears, and serves the files over several protocols. This project models its
decision logic in Dafny and proves what that logic promises.

The torrent session (librqbit) is abstract: a map from info hash to paused, finished, error,
progress, piece set and trackers, whose calls may succeed or fail one by one. The two database
tables are a map and a sequence of rows with the foreign key's cascade. Clock readings, free disk
space, the state of the disk and the outcome of each external call are parameters of the step
that uses them.

| module | what it holds |
|---|---|
| `Planner`, `Ordering` | the eviction plan with 64-bit wrap-around, and the (time, key) order it sorts by |
| `CatalogStore` | the tables, their statements, and the class that owns them |
| `Eviction` | carrying a plan out against session and catalog; removal; downloads left without a row |
| `Orphans` | a run that leaves a download without a row, and one whose eviction frees nothing |
| `Interleave`, `Enforcement` | a small-step machine in which all tasks interleave at their awaits, and what enforcing a pause achieves in it |
| `Pause`, `PauseFile` | the pause as a state machine over whole runs; its file under crashes and power cuts |
| `TorrentSession`, `Queue`, `QueueRuns` | the session, the download queue, and its bound over runs of whole operations |
| `Slots` | the same bound while everything interleaves |
| `Alone` | what a task of the interleaved machine does when nothing else runs |
| `Stall` | the stall map and the history of sweeps it summarises |
| `Reload` | reloading, re-announcing, and reconciling after a restart |
| `TorrentEngine` | the engine as a class: every method against the functions of the modules above |
| `Trackers` | normalising, merging and refreshing the public tracker list |
| `EnvFile` | the environment-file parser, the template that prints such files, the search for bad values |
| `Extra`, `SourceAcl`, `Mount`, `Text` | path arguments, client addresses, device numbers and mounts, string basics |

## Where the code and its own words differ

The model follows the code. Each point is a lemma.

- A comment (`crates/tornas/src/trackers.rs:414`) says that a failed source keeps its previous list; it does not once another source answers (`Trackers.OutageShrinksIff`, `Trackers.OutageDropsTracker`).
- A pause must be "between 1 second and 30 days"; shorter ones are accepted and end at once (`Pause.TimedPauseLastsIff`, `Pause.HalfSecondPauseEndsAtOnce`).
- "A torn write after a power cut must not lose the pause": the file is never torn, but the directory is not synced, so the old content may come back (`PauseFile.NeverTorn`, `PauseFile.AcknowledgedStoreMayRevert`, `PauseFile.AcknowledgedPauseGone`).
- A pause is "persisted so a restart or power cut mid-pause stays paused": one made while the disk is missing never is (`Pause.RestartKeepsPauseIff`); a resume whose file could not be removed does not outlive a restart (`Pause.ResumeSticksIff`, `Pause.LiftedPauseReturns`).
- Resuming is refused without the disk, but the check is made before the lock is taken (`Interleave.ResumeOvertakenByDiskLoss`, `Interleave.LiftedWithoutDiskOnlyByResume`); with the periodic check as one step a pause never ends without the disk (`Pause.PauseEndsExactly`).
- A second torrent row of an evicted or removed movie leaves its download behind without a row (`Eviction.EvictionOrphans`, `Eviction.RemovalOrphans`, `Orphans.OrphanHappens`).
- "No progress for the timeout" is measured against the highest progress seen for the hash, which survives an eviction and a new add between two sweeps (`Stall.StalledStoodStillIff`, `Stall.StalledWhileProgressing`).
- "True when every address is permitted" holds if the ranges cover both families; a zero-length range covers its own (`SourceAcl.ShortcutMatchesRangesIff`, `SourceAcl.ShortcutTooWide`, `SourceAcl.ShortcutTooNarrow`).
- The announced next eviction need not be the torrent that goes first: ties are broken differently (`Planner.NextEvictionIsFirstIff`).
- A restart re-adds missing torrents running, however full the queue is (`Reload.ReconcileActive`); the next check balances them.
- "Run at most `--max-active-downloads` unfinished torrents": an add decides before it waits for the session, and a reload gives its slot up in between, so more can run until the next check (`Slots.BoundHoldsIff`, `Slots.StaleAddOverfills`, `Slots.ReloadOverfills`).
- "Evict until ... `min_free` stays free on disk": a victim that is not loaded is counted although its files stay (`Eviction.FloorMetIff`, `Orphans.FloorMissed`).
- "Empty if disabled or stale": a stale feed still hands out the static entries that pass (`Trackers.StaleIsEmptyIff`, `Trackers.StaleHandsOutStatic`).
- Hosts on the block list are matched in any case, globs only in lower case (`Trackers.GlobCaseMattersIff`, `Trackers.UpperCaseGlobBlocksNothing`).

## Model

| member | source | states |
|---|---|---|
| `Planner.MakePlan` | crates/tornas/src/media_catalog/eviction.rs:53-95 | the planner's two refusals, its early exit and its loop compute the plan function that the lemmas below characterise, 64-bit wrap included |
| `Planner.TakeOldest` | crates/tornas/src/media_catalog/eviction.rs:74-82 | the walk takes the shortest prefix whose wrapping total reaches the need |
| `Planner.PlanExact` | crates/tornas/src/media_catalog/eviction.rs:53-95 | success if and only if the torrent fits the limit and the unprotected total covers the need; victims are the shortest sufficient prefix of the ranking; on a shortage, needed plus freeable is the whole need |
| `Planner.RankingHolds` | crates/tornas/src/media_catalog/eviction.rs:72-73 | the ranking contains exactly the unprotected candidates, in (last_used_at, key) order, with the same total size |
| `Planner.PlanTakesOldestFirst` | crates/tornas/src/media_catalog/eviction.rs:72-82 | nothing that is kept could have gone before anything that is evicted |
| `Planner.PlanOrderIndependent` | crates/tornas/src/media_catalog/eviction.rs:72-73 | with distinct keys the plan is the same for any permutation of the candidates |
| `Planner.PlanGrowsByExtension` | crates/tornas/src/media_catalog/eviction.rs:63-82 | a larger need evicts the same torrents first and then possibly more |
| `Planner.VictimsUnique` | crates/tornas/src/media_catalog/eviction.rs:74-82 | no torrent is evicted twice |
| `Planner.NextEvictionAnnounced` | crates/tornas/src/engine/views.rs:202-206 | the first victim of any plan has the last-used time that the status page announces |
| `Planner.NextEvictionIsFirstIff` | crates/tornas/src/engine/views.rs:202-206 | with distinct keys the announced torrent is the first victim if and only if no other unprotected one with the same time has a smaller key |
| `Planner.NextEvictionMayDiffer` | crates/tornas/src/engine/views.rs:202-206 | a tie in which the announced torrent is not the one evicted |
| `Planner.PlanFitsIff` | crates/tornas/src/media_catalog/eviction.rs:63-66 | for every need on top of the budget rule, a successful plan brings the library within its limit if and only if `used + incoming` does not overflow 64 bits (release builds wrap, `Cargo.toml:21`) or that need alone forces enough out |
| `Planner.OverflowingPlans` | crates/tornas/src/media_catalog/eviction.rs:63-66 | an overflowing sum whose plan does not fit, and one whose plan fits thanks to the floor |
| `CatalogStore.UpsertsKeepFirstAdded` | crates/tornas/src/media_catalog/orm/movies.rs:12-37 | after any number of upserts a movie has its latest data and its first `added_at`; no other movie and no torrent row changes, and the tables stay consistent |
| `CatalogStore.Catalog.Delete` | crates/tornas/src/media_catalog/orm/movies.rs:54-59 | the movie and every torrent row of it are gone, all else stays, and the result says whether the movie existed |
| `CatalogStore.Catalog.Insert` | crates/tornas/src/media_catalog/orm/torrents.rs:11-18 | replaces the row with the same hash, with no completion time; refused, with nothing changed, when the movie is missing |
| `CatalogStore.InsertExactly` | crates/tornas/src/media_catalog/orm/torrents.rs:11-18 | afterwards the rows are the new one, last and not complete, and those of other hashes |
| `CatalogStore.TouchProtects` | crates/tornas/src/media_catalog/orm/movies.rs:61-67 | a touch protects all torrents of the movie for exactly the grace window and changes no other candidate for eviction |
| `CatalogStore.LimitsChangeNoDecision` | crates/tornas/src/media_catalog/orm/torrents.rs:21-38 | only the row with the hash gets the three limits, every other row and column stays, and so do the size of the library, the candidates for eviction and the consistency of the tables |
| `CatalogStore.CompletionChangesNoDecision` | crates/tornas/src/media_catalog/orm/torrents.rs:67-74 | only the completion time of the row with the hash changes; the size of the library, the candidates for eviction and the consistency of the tables stay |
| `Queue.OrderSame` | crates/tornas/src/engine/queue.rs:87-88 | neither new limits nor completion times change the order of the queue |
| `CatalogStore.Catalog.Candidates` | crates/tornas/src/media_catalog.rs:81-101 | one candidate per row, protected by its movie's last-used time, and the (wrapping) total of the sizes |
| `CatalogStore.CandidatesShow` | crates/tornas/src/media_catalog.rs:86-98 | each candidate has its row's hash and size, and its movie's last-used time; it is protected for exactly the grace window from then |
| `CatalogStore.WithoutMovieByAdded` | crates/tornas/src/media_catalog.rs:88-89 | a row without a movie counts by the time it was added |
| `CatalogStore.TorrentForMovie` | crates/tornas/src/media_catalog/orm/torrents.rs:46-54 | a row of the movie with the latest `added_at`, and none only if the movie owns no row |
| `CatalogStore.DeleteMovieConsistent` | crates/tornas/src/media_catalog/orm/migrations/0001_init/up.sql:21 | deleting with the cascade keeps every remaining row's movie present and hashes unique |
| `CatalogStore.InsertTorrentConsistent` | crates/tornas/src/media_catalog/orm/migrations/0001_init/up.sql:19-32 | a replace that passes the foreign key keeps the tables consistent |
| `CatalogStore.VictimsShare` | crates/tornas/src/media_catalog.rs:81-101 | the plan's victims and the rows that are not victims together account for every byte of the library |
| `Eviction.EvictOneExact` | crates/tornas/src/engine/eviction.rs:30-51 | one eviction removes the torrent from the session and its movie with all of the movie's rows, and nothing else |
| `Eviction.EvictAllExact` | crates/tornas/src/engine/eviction.rs:24-26 | carrying out a whole plan removes exactly the victims' movies, all of their rows, and the victims' downloads |
| `Eviction.EvictAllFailure` | crates/tornas/src/engine/eviction.rs:24-26 | a failed deletion leaves exactly what the victims before it would have left |
| `Eviction.SpacePlanSuffices` | crates/tornas/src/media_catalog.rs:105-114 | what the plan leaves plus the incoming size is within the budget, and freed plus free disk covers incoming plus the floor |
| `Eviction.LeastRecentlyUsedGo` | crates/tornas/src/media_catalog.rs:86-98 | told on tables and rows: a row that goes has a movie used before that of any row that stays although it could go, or at the same time and then the smaller hash, and outside the grace window |
| `Eviction.SpacePlanExact` | crates/tornas/src/media_catalog/eviction.rs:60-94 | told on tables and rows: room can be made if and only if the torrent fits the budget and the rows that may go cover the larger of the two shortages; nothing goes beyond that, and a refusal says what is missing |
| `Eviction.MakingRoomIsSafe` | crates/tornas/src/engine/eviction.rs:17-28 | after the plan is carried out the library plus the incoming torrent is within budget, the planned bytes cover the floor, and no row protected in the snapshot is gone, however many rows a movie owns |
| `Eviction.FloorMetIff` | crates/tornas/src/engine/eviction.rs:37-45 | the bytes the session deletes are the planned ones if and only if no victim outside the session has any, and they meet the floor if and only if those victims take no more than the plan had to spare |
| `Orphans.FloorMissed` | crates/tornas/src/engine/eviction.rs:37-45 | after a failed reload a plan for one byte is carried out without failure and the session deletes nothing |
| `Eviction.OrphansExact` | crates/tornas/src/media_catalog/orm/migrations/0001_init/up.sql:21 | no download is left without a row if and only if every download that lost its row was deleted too |
| `Eviction.EvictionOrphans` | crates/tornas/src/engine/eviction.rs:37-45 | an eviction leaves downloads without a row exactly when a victim's movie owns another loaded torrent that is not a victim |
| `Eviction.RemovalOrphans` | crates/tornas/src/engine/add.rs:37-52 | removing a movie removes exactly its rows, and leaves an orphan download exactly when an older torrent of it is loaded |
| `Orphans.OrphanHappens` | crates/tornas/src/engine/add.rs:110-117 | a reachable case: an accepted add, a reload whose add fails, a second accepted add that evicts nothing, a restart that loads both torrents; then a removal or an eviction leaves the older download without a row |
| `TorrentEngine.Engine.Evict` | crates/tornas/src/engine/eviction.rs:30-51 | changes session and catalog as `EvictOne` says and drops the torrent's saved piece map, or changes nothing when the session refuses |
| `TorrentEngine.Engine.EvictEach` | crates/tornas/src/engine/eviction.rs:24-26 | the loop carries the list out up to the first failure; piece maps go with the torrents deleted and only with them |
| `TorrentEngine.Engine.EnsureSpace` | crates/tornas/src/engine/eviction.rs:17-28 | nothing is evicted when planning fails; otherwise budget and protection hold as above, the floor in planned bytes, and in deleted bytes under the stated equivalence |
| `TorrentEngine.Engine.Remove` | crates/tornas/src/engine/add.rs:37-52 | removes the movie, its rows and its newest download, or nothing; the result says whether the movie existed |
| `TorrentEngine.Engine.AddMovie` | crates/tornas/src/engine/add.rs:71-333 | every refusal before making room changes nothing; a later failure leaves only the evictions; success gives exactly the new session, movie and row, within budget, paused if and only if the queue was full |
| `TorrentEngine.AddGoesOnIff` | crates/tornas/src/engine/add.rs:75-117 | where movies own one torrent each, an add goes on if and only if the engine is not paused, neither the torrent nor any of its movie is loaded, and it is no private torrent from a magnet link |
| `TorrentEngine.AddedExactly` | crates/tornas/src/engine/add.rs:275-316 | session, movies and rows after an accepted add, field by field, and that nothing else changes |
| `TorrentEngine.Engine.StartAndRecord` | crates/tornas/src/engine/add.rs:275-316 | the download starts, paused if and only if the queue is full, with public trackers only if it is not private, and exactly its movie and row are recorded |
| `Interleave.NextKeeps` | crates/tornas/src/engine/add.rs:54-56 | every step of every task keeps the invariant: who holds the lock, adds past their check are unpaused, and a half-executed plan still makes enough room |
| `Interleave.EvictStepMakesRoom` | crates/tornas/src/engine/eviction.rs:30-45 | the lock holder's remaining victims stay sufficient although the row it read may be stale |
| `Interleave.RunKeeps` | crates/tornas/src/engine/add.rs:274-316 | the invariant holds after any run of adds, removals, sweeps, stall evictions, pauses, limit changes, reloads, cancellations and reboots, interleaved at every await |
| `Interleave.BudgetSafety` | crates/tornas/src/engine/add.rs:274-316 | in every interleaving the catalog never exceeds the larger of the budget and its starting size |
| `Interleave.WithinBudgetStays` | crates/tornas/src/engine/add.rs:274-316 | once within the budget, whatever is in flight, it stays within |
| `Interleave.GrowthIsAnAdd` | crates/tornas/src/engine/add.rs:302-316 | only an add that holds the lock grows the library, and it ends within the budget |
| `Interleave.PauseChangesUnderLock` | crates/tornas/src/engine/pause.rs:64-84 | outside a reboot the pause changes only in a step of the lock holder |
| `Interleave.AddsRunUnpaused` | crates/tornas/src/engine/add.rs:76-81 | an add that passed its pause check is unpaused, in every interleaving, until it ends |
| `Interleave.LooseOnlyByStaleTask` | crates/tornas/src/engine/disk.rs:49-50 | during a pause a step sets a torrent running if and only if it is a reboot that loads it so, or a balancing pass or the add of a reload already under way, under the stated guards |
| `Interleave.LooseTorrentHappens` | crates/tornas/src/engine/queue.rs:78-121 | a run in which a balancing pass that began before a pause leaves a torrent running after the pause has been applied to every torrent |
| `Interleave.ResumeOvertakenByDiskLoss` | crates/tornas/src/engine/pause.rs:102-113 | a run in which a resume that waited for the lock lifts the pause with the disk known to be missing |
| `Interleave.LiftedWithoutDiskOnlyByResume` | crates/tornas/src/engine/pause.rs:102-113 | a step ends a pause with the disk missing if and only if it is the lifting step of such a resume |
| `Alone.EvictionAlone` | crates/tornas/src/engine/eviction.rs:24-45 | the eviction loop, as the only task to take steps, does what carrying out the whole plan does, up to the first failure |
| `Alone.BalanceAlone` | crates/tornas/src/engine/queue.rs:91-119 | so a balancing pass alone is the whole pass |
| `Alone.PassAlone` | crates/tornas/src/engine/pause.rs:38-53 | a pausing pass alone pauses what it lists |
| `Alone.AddAlone` | crates/tornas/src/engine/add.rs:54-316 | and an add alone, from its wait for the lock to its end, leaves the world that the engine's add leaves |
| `Alone.RemoveAlone` | crates/tornas/src/engine/add.rs:37-52 | a removal alone is the engine's removal |
| `Alone.SweepAlone` | crates/tornas/src/engine/eviction.rs:60-67 | a sweep alone does nothing without the disk or a plan, and otherwise carries the plan out |
| `Alone.PauseAlone` | crates/tornas/src/engine/pause.rs:58-98 | pausing by hand, alone, leaves the pause and the session that the engine's call leaves |
| `Alone.ResumeAlone` | crates/tornas/src/engine/pause.rs:102-122 | so does resuming |
| `Alone.CheckAlone` | crates/tornas/src/engine/disk.rs:51-105 | so does the periodic check, in each of its branches |
| `Alone.CompletionAlone` | crates/tornas/src/engine/queue.rs:23-61 | and a completion alone marks, stops and balances as the engine's does |
| `Alone.ReloadAlone` | crates/tornas/src/engine/limits.rs:16-74 | a reload alone, with no piece arriving in between, is the engine's reload, whichever of its steps fails |
| `Alone.LimitsAlone` | crates/tornas/src/engine/limits.rs:77-109 | changing limits alone writes them to the torrent's rows, and to no others, and reloads the torrent |
| `Alone.UsedMovieStays` | crates/tornas/src/media_catalog/orm/movies.rs:61-67 | after a touch no plan made within the grace window names a torrent of the movie, whatever else is planned for |
| `Enforcement.CheckPausesEverything` | crates/tornas/src/engine/disk.rs:97-102 | a check that finds the pause still in force, with nothing stale left, ends with every torrent paused, whatever runs between its steps |
| `Enforcement.PassPausesEverything` | crates/tornas/src/engine/pause.rs:38-53 | a complete pass during a pause, begun when no balancing or unpaused reload is left over, leaves every torrent paused, whatever runs in between |
| `Enforcement.PassLeavesOnlyLoosened` | crates/tornas/src/engine/pause.rs:38-53 | at any time during a pass whose calls succeed, with no condition on other tasks, whatever runs has still to be visited or came loose since the pass began |
| `Enforcement.PassPausesEverythingIff` | crates/tornas/src/engine/pause.rs:38-53 | such a pass ends with everything paused if and only if nothing that came loose meanwhile is running at its end |
| `Enforcement.PausedStaysPaused` | crates/tornas/src/engine/disk.rs:49-50 | from then on nothing comes loose in any run until the pause is lifted |
| `Pause.RunSound` | crates/tornas/src/engine/disk.rs:31-105 | over every run: a missing disk means paused, a disk pause has no end time, the file never holds one |
| `Pause.NewPauseExactly` | crates/tornas/src/engine/pause.rs:73-78 | an accepted call asks for an end as many whole seconds from now as its duration has, and for the start of the pause it extends |
| `Pause.ThirtyDaysAtMost` | crates/tornas/src/engine/pause.rs:66-72 | thirty days are accepted and a nanosecond more is not; nor is nothing |
| `Pause.CheckSeesDisk` | crates/tornas/src/engine/disk.rs:51-103 | after a check the flag says what the disk was; without the disk there is a pause, the old one if there was one; the file changes only where the pause is lifted |
| `Pause.RunFileKnown` | crates/tornas/src/engine/pause.rs:190-214 | as long as file removals and reads work, a live pause on file is in force in memory |
| `Pause.PauseEndsExactly` | crates/tornas/src/engine/disk.rs:63-103 | the exact condition for a pause to end in each kind of step; it never ends while the disk is missing |
| `Pause.DiskPauseOrigin` | crates/tornas/src/engine/disk.rs:31-40 | a disk pause in force was created by a check that found no pause and saw the disk gone, and has been in force since |
| `Pause.DiskWatchLiftsOnlyItsOwn` | crates/tornas/src/engine/pause.rs:165-171 | what a check lifts before its end time is a pause the disk watch itself created |
| `Pause.FiledPauseSurvives` | crates/tornas/src/engine/pause.rs:135-143 | a manual pause that reached the file stays unchanged through any restarts, disk losses and checks until its end time or an accepted call |
| `Pause.AcceptedPauseSurvives` | crates/tornas/src/engine/pause.rs:79-84 | so does every accepted pause made with the disk present, from the call on |
| `Pause.ManualPauseOutlivesDisk` | crates/tornas/src/engine/disk.rs:64-74 | without restarts, no sequence of disk losses and returns ends a manual pause |
| `Pause.ExtendingKeepsSince` | crates/tornas/src/engine/pause.rs:55-57 | pausing again, any number of times, keeps the original start |
| `Pause.RestartKeepsPauseIff` | crates/tornas/src/engine/pause.rs:66-84 | an accepted manual pause is in force right after a restart if and only if it is indefinite or at least a second long, and the disk was present or the file already held that very pause |
| `Pause.PauseMadeWithoutDiskIsLost` | crates/tornas/src/engine/pause.rs:81-83 | a run: a pause made while the disk is missing is not written later, so a restart forgets it |
| `Pause.ResumeSticksIff` | crates/tornas/src/engine/pause.rs:203-205 | a lifted pause stays lifted after a restart if and only if its file was removed, absent or expired |
| `Pause.LiftedPauseReturns` | crates/tornas/src/engine/pause.rs:203-205 | a lifted pause whose file could not be removed, back after a restart |
| `Pause.TimedPauseLastsIff` | crates/tornas/src/engine/pause.rs:66-78 | an accepted timed pause outlasts the next check, or a restart, if and only if it is at least one second long |
| `Pause.HalfSecondPauseEndsAtOnce` | crates/tornas/src/engine/pause.rs:66-78 | a pause of half a second, accepted and over at the next check in the same second |
| `Pause.ApplyPauseConverges` | crates/tornas/src/engine/pause.rs:38-53 | enforcement leaves nothing running if and only if no needed call fails, and is idempotent |
| `PauseFile.InterruptedStore` | crates/tornas/src/engine/pause.rs:200-214 | after any prefix of a store the file is the old or the new content, and so is whatever a power cut may leave |
| `PauseFile.CrashThenLoad` | crates/tornas/src/engine/pause.rs:190-214 | the next start loads the old pause or the new one |
| `PauseFile.CrashIsAtomic` | crates/tornas/src/engine/pause.rs:73-113 | a crash anywhere inside a pause or a resume restarts as if the call had not begun or had completed |
| `PauseFile.NeverTorn` | crates/tornas/src/engine/pause.rs:199-214 | over any run of interrupted stores and power cuts the file is never torn and only holds contents that were stored |
| `PauseFile.AcknowledgedStoreMayRevert` | crates/tornas/src/engine/pause.rs:199-214 | the directory is not synced: after an acknowledged store a power cut can yield only the new content if and only if nothing else could survive before it |
| `PauseFile.AcknowledgedPauseGone` | crates/tornas/src/engine/pause.rs:207-210 | a first pause, acknowledged, and gone after a power cut |
| `TorrentEngine.Engine.constructor` | crates/tornas/src/engine/session.rs:160-176 | start restores the filed pause, reconciles with it, and enforces it |
| `TorrentEngine.Engine.PauseEverything` | crates/tornas/src/engine/pause.rs:38-53 | pauses exactly the loaded torrents whose call succeeds and counts those that were running |
| `TorrentEngine.Engine.PauseByHand` | crates/tornas/src/engine/pause.rs:58-98 | accepted or refused as the core says; on success every torrent is paused, otherwise nothing changes |
| `TorrentEngine.Engine.Resume` | crates/tornas/src/engine/pause.rs:102-122 | refused while the disk is missing; otherwise lifts, restarts through the queue only, and returns how many it started |
| `TorrentEngine.Engine.PauseForDisk` | crates/tornas/src/engine/disk.rs:31-47 | pauses in memory only, and only when nothing is paused yet |
| `TorrentEngine.Engine.Check` | crates/tornas/src/engine/disk.rs:51-105 | whenever it leaves the engine paused and the calls work, no session torrent is running; otherwise it leaves the queue balanced |
| `Queue.BalanceExact` | crates/tornas/src/engine/queue.rs:78-121 | the running unfinished torrents are exactly the oldest `max` of the loaded, healthy, unfinished rows by (added_at, info_hash); no other field changes |
| `Queue.OldestRun` | crates/tornas/src/engine/queue.rs:87-119 | told on the rows: one that runs was added before one that is held, or at the same time under a smaller hash; at most `max` run, and so many if any is held; finished ones start exactly if they are to seed; the others stay as they were |
| `Queue.StartedCount` | crates/tornas/src/engine/queue.rs:89-120 | the count a pass returns is that of the torrents it has set running |
| `Queue.BalanceIdempotent` | crates/tornas/src/engine/queue.rs:75-121 | a second pass starts and pauses nothing |
| `Queue.ActiveAfterBalance` | crates/tornas/src/engine/queue.rs:64-73 | the active torrents afterwards are those first in line plus those the queue does not govern |
| `Queue.BalanceKeepsBound` | crates/tornas/src/engine/queue.rs:64-121 | at most `max` are active when every loaded torrent is a healthy row |
| `Queue.AddKeepsBound` | crates/tornas/src/engine/add.rs:288 | an add, as one step with its look at the queue, keeps the bound |
| `Queue.ActiveCountAfterBalance` | crates/tornas/src/engine/queue.rs:78-121 | the number of active torrents after a pass is that of those first in line plus that of the running ones it does not govern |
| `QueueRuns.StepWithinIff` | crates/tornas/src/engine/queue.rs:64-121 | taken as one step from within the bound, every operation stays within it, but for a pass, a restart or a running torrent turning unfinished, exactly if these fit |
| `QueueRuns.BoundThroughoutIff` | crates/tornas/src/engine/queue.rs:64-121 | over any run of whole operations, one after the other, the bound holds throughout if and only if it holds at the start and every operation fits |
| `QueueRuns.GovernedRunStaysWithin` | crates/tornas/src/engine/queue.rs:78-121 | between restarts such a run keeps the bound as long as every running torrent is a healthy row whenever a pass is made |
| `QueueRuns.AddOperationStaysWithin` | crates/tornas/src/engine/add.rs:274-289 | an add with all its evictions, nothing else going on, keeps the bound |
| `QueueRuns.EvictionIsLeave` | crates/tornas/src/engine/eviction.rs:24-26 | every eviction, complete or cut short, is such an operation: some torrents leave and the others are unchanged |
| `Slots.BecomesActiveIff` | crates/tornas/src/engine/add.rs:288 | in the interleaved machine a torrent becomes active in exactly the listed steps: the session's answer to an add or a reload, a balancing step, a finished running torrent turning unfinished, a reboot |
| `Slots.LeavesBoundIff` | crates/tornas/src/engine/queue.rs:63-73 | from within the bound a step leaves it if and only if it makes one more torrent active with every slot taken, or is a reboot that loads too many |
| `Slots.BoundHoldsIff` | crates/tornas/src/engine/queue.rs:75-78 | over every interleaving the bound holds throughout if and only if it holds at first and no step does so |
| `Slots.StaleAddOverfills` | crates/tornas/src/engine/add.rs:275-289 | a run with one slot in which an add looks at the queue, a balancing pass takes the slot, and the add goes on: two torrents run |
| `Slots.ReloadOverfills` | crates/tornas/src/engine/limits.rs:39-57 | a run with one slot in which a pass starts the next torrent while a reload has its own out of the session: two torrents run |
| `Queue.OneCompletion` | crates/tornas/src/engine/queue.rs:40-50 | one completion starts exactly the next torrent in line and keeps the rest in order |
| `Queue.DrainsInOrder` | crates/tornas/src/engine/queue.rs:23-61 | over any run of completions, the torrents started are the queued ones in queue order, one per completion |
| `TorrentEngine.Engine.BalanceQueue` | crates/tornas/src/engine/queue.rs:78-121 | the loop does what the balancing function says, and nothing while paused |
| `TorrentEngine.Engine.FinishDownload` | crates/tornas/src/engine/queue.rs:23-61 | marks the row, stops the torrent unless it seeds or is already paused, and rebalances |
| `Stall.EntrySummarises` | crates/tornas/src/engine/stall.rs:21-38 | an entry is the most progress seen, and the first time it was seen, since the hash was last forgotten; no entry means nothing was seen |
| `Stall.SummaryIsEntry` | crates/tornas/src/engine/stall.rs:21-38 | conversely, any such summary of the history is the entry |
| `Stall.StalledExactly` | crates/tornas/src/engine/stall.rs:28-47 | a torrent is evicted if and only if this sweep sees it downloading outside the grace window with no more progress than a mark at least the timeout old |
| `Stall.ConstantProgressIsEvicted` | crates/tornas/src/engine/stall.rs:11-47 | constant progress over sweeps spanning the timeout leads to eviction once unprotected |
| `Stall.StalledStoodStillIff` | crates/tornas/src/engine/stall.rs:11-47 | a torrent found stalled was never seen paused, finished or without a row since the mark that condemns it, and it stood still since then if and only if its observed progress never went down |
| `Stall.StalledWhileProgressing` | crates/tornas/src/engine/stall.rs:32-38 | a history in which progress that fell back, and rises again, is evicted as stalled |
| `TorrentEngine.Engine.ScanRow` | crates/tornas/src/engine/stall.rs:23-47 | one row's update of the map and its verdict |
| `TorrentEngine.ListedIff` | crates/tornas/src/engine/stall.rs:23-47 | told on session and catalog: a hash is listed if and only if it is that of a row that is loaded, neither paused nor finished, has no more bytes than were recorded at least the timeout ago, and whose movie was used before the grace window |
| `TorrentEngine.SweepRecords` | crates/tornas/src/engine/stall.rs:22-38 | what is recorded after a sweep, for every hash: nothing without a row or for a paused or finished one, the old record for one not loaded or without progress, a new one otherwise |
| `TorrentEngine.Engine.ScanStalled` | crates/tornas/src/engine/stall.rs:12-49 | a whole sweep leaves the map that the history functions describe and lists exactly the stalled hashes in row order |
| `TorrentEngine.Engine.EvictStalled` | crates/tornas/src/engine/stall.rs:50-67 | evicts exactly the stalled list and returns it, or stops at the first failure |
| `Reload.ReloadPreserves` | crates/tornas/src/engine/limits.rs:16-74 | a reload keeps the paused flag and all other torrents; the final piece set comes back if and only if the map read was final, or a re-check finds it |
| `Reload.PausedReloadIsExact` | crates/tornas/src/engine/session.rs:248-266 | a paused torrent comes back exactly as it was, whatever stale map lay on disk |
| `Reload.ReannounceExact` | crates/tornas/src/engine/trackers.rs:39-66 | a re-announce reloads exactly the public, unfinished, unpaused torrents once each, carries flag and pieces over, and touches nothing else |
| `Reload.ReannounceUpdates` | crates/tornas/src/engine/trackers.rs:39-66 | after a re-announce that succeeds a loaded, public, unfinished and unpaused torrent of a row has the current trackers, and every other is as it was |
| `Reload.ReconcileAgrees` | crates/tornas/src/engine/session.rs:191-225 | afterwards the session holds exactly the catalog's hashes, but for those whose own delete, source or add failed; added ones start paused if and only if the engine is paused |
| `Reload.ReconcileIdempotent` | crates/tornas/src/engine/session.rs:191-225 | when nothing failed, a second pass changes nothing |
| `Reload.PrivateStaysPrivate` | crates/tornas/src/engine/session.rs:229-242 | no reload, no re-announce over all rows and no reconcile gives a private row the public trackers |
| `TorrentEngine.AddStaysPrivate` | crates/tornas/src/engine/add.rs:242-287 | an add keeps every private row free of public trackers, its own included |
| `TorrentEngine.EvictionStaysPrivate` | crates/tornas/src/engine/eviction.rs:24-45 | so does any eviction, complete or cut short |
| `Reload.ReconcileActive` | crates/tornas/src/engine/session.rs:207-223 | reconciling leaves active exactly what it keeps active plus, unless the engine is paused, every unfinished torrent it adds, however full the queue |
| `Reload.RestartStartsBoth` | crates/tornas/src/engine/session.rs:207-223 | two rows missing from the session both start, whatever the maximum |
| `TorrentEngine.Engine.ReloadTorrent` | crates/tornas/src/engine/limits.rs:16-74 | the steps pause, read, delete, write back, add have the effect the reload function says, at every failure point |
| `TorrentEngine.Engine.ReannounceActive` | crates/tornas/src/engine/trackers.rs:39-66 | nothing while paused; otherwise the row-by-row pass, ended by the first failure |
| `TorrentEngine.Engine.SetMovieLimits` | crates/tornas/src/engine/limits.rs:77-125 | refused without the disk or the movie; otherwise the row has the new limits even when the reload fails |
| `TorrentEngine.Engine.ReconcileSession` | crates/tornas/src/engine/session.rs:191-225 | the two loops have the effect of the reconcile function |
| `Trackers.NormalizeIdempotent` | crates/tornas/src/trackers.rs:187-224 | a tracker in canonical form is a fixed point of normalising |
| `Trackers.CanonicalIsKept` | crates/tornas/src/trackers.rs:197-223 | an address in lower case, with no port or one its scheme does not imply, and a path without a trailing slash, is written as it is, query included |
| `Trackers.ImpliedPortIsDropped` | crates/tornas/src/trackers.rs:199-207 | ports 80 and 443 are dropped where the scheme implies them |
| `Trackers.CaseMakesNoDifference` | crates/tornas/src/trackers.rs:197-198 | upper case in scheme and host makes no difference |
| `Trackers.TrailingSlashMakesNoDifference` | crates/tornas/src/trackers.rs:208 | nor does a trailing slash of the path |
| `Trackers.EmptyPathMeansAnnounce` | crates/tornas/src/trackers.rs:209-213 | an empty path means `/announce`, except under udp |
| `Trackers.WhatIsNoTracker` | crates/tornas/src/trackers.rs:190-195 | exactly empty lines, comments, and what the library does not read as an address with a host yield no tracker; a leading space makes no difference |
| `Trackers.GlobCaseMattersIff` | crates/tornas/src/trackers.rs:237-248 | a host glob blocks the same as in lower case if and only if it is written so, or blocks nothing in lower case either |
| `Trackers.UpperCaseGlobBlocksNothing` | crates/tornas/src/trackers.rs:237-248 | a tracker that a lower-case glob and an upper-case host block, and the upper-case glob does not |
| `Trackers.GlobBlocksDomain` | crates/tornas/src/trackers.rs:240-241 | a glob blocks exactly its domain and the hosts below it |
| `Trackers.HostBlocksHost` | crates/tornas/src/trackers.rs:244-245 | a plain entry blocks exactly that host, in any case |
| `Trackers.AddressBlocksItsSpellings` | crates/tornas/src/trackers.rs:242-243 | an address on the list keeps out every line that normalises to the same tracker |
| `Trackers.Merge` | crates/tornas/src/trackers.rs:262-301 | the loops over lists and lines compute the filtered, deduplicated, capped list and both counts |
| `Trackers.LinesAccountedFor` | crates/tornas/src/trackers.rs:277-297 | every line is exactly one of ignored, rejected, a repeat, or kept |
| `Trackers.FirstsInOrder` | crates/tornas/src/trackers.rs:292-296 | kept trackers stand in the order of their first accepted lines |
| `Trackers.MergeGuarantees` | crates/tornas/src/trackers.rs:260-301 | no duplicates, a prefix of the uncapped result of at most `max`, each canonical and unblocked, each from a line that passes every filter and conversely, and all lines accounted for |
| `Trackers.BlankLinesAreIgnored` | crates/tornas/src/trackers.rs:278-283 | of lines that yield no tracker exactly blank ones and comments are ignored, the rest rejected |
| `Trackers.SourceSchemes` | crates/tornas/src/trackers.rs:266-276 | a source's own schemes, where it has any, stand in place of the general ones, in any case |
| `Trackers.StaticsComeLast` | crates/tornas/src/trackers.rs:271-272 | the lists come in their order and the static entries last |
| `Trackers.LinesAtHandIff` | crates/tornas/src/trackers.rs:384-410 | a refresh goes by exactly the lines of the enabled sources that answered, each within its own limit, and the static entries |
| `Trackers.ChangedIff` | crates/tornas/src/trackers.rs:419-444 | a refresh reports a change if and only if a source answered and the list is not what it was |
| `Trackers.RefreshKeepsExactly` | crates/tornas/src/trackers.rs:411-433 | once a source answers, a tracker is listed if and only if it is among the first `max` that answering sources and static entries yield; what was cached plays no part |
| `Trackers.OutageShrinksIff` | crates/tornas/src/trackers.rs:414-433 | no cached tracker is lost if and only if the feed is off, no source answers, or each can be had from what did answer |
| `Trackers.OutageDropsTracker` | crates/tornas/src/trackers.rs:414-433 | a tracker that one source had delivered, gone when that source fails and the other answers |
| `Trackers.FeedCleanIff` | crates/tornas/src/trackers.rs:304-328 | after any refreshes the list is clean if and only if the cache it was loaded from was, or some refresh replaced it |
| `Trackers.CurrentIsClean` | crates/tornas/src/trackers.rs:335-350 | whatever is handed out is canonical, distinct, unblocked and within the cap, if and only if the feed is off, stale, loaded clean, or replaced by a refresh |
| `Trackers.StaleIsEmptyIff` | crates/tornas/src/trackers.rs:334-350 | of a stale feed nothing is handed out if and only if the cap is zero or no static entry passes the filters |
| `Trackers.StaleHandsOutStatic` | crates/tornas/src/trackers.rs:334-350 | a stale feed that hands out its static entry |
| `EnvFile.JoinLines` | crates/tornas/src/config/check/env.rs:33-39 | the continuation loop computes the joining function |
| `EnvFile.ContinueJoins` | crates/tornas/src/config/check/env.rs:33-39 | as long as no blank line is taken in, lines are joined exactly as far as each but the last ends in a backslash, or the file does, and the text is those lines without it |
| `EnvFile.BlankLineUncoversBackslash` | crates/tornas/src/config/check/env.rs:33-39 | a blank line that is taken in uncovers a backslash before it, and the line after it is taken in as well |
| `EnvFile.ParseEnvFile` | crates/tornas/src/config/check/env.rs:28-90 | the nested loops over lines and continuations compute the parse function, line numbers and errors included |
| `EnvFile.EveryLineIsReported` | crates/tornas/src/config/check/env.rs:28-90 | of a text without continued lines, every bad line is an error under its own number, every good one a setting, and nothing else is either |
| `EnvFile.ReturnsMakeNoDifference` | crates/tornas/src/config/check/env.rs:30-31 | a carriage return before a line feed makes no difference |
| `EnvFile.CommentsAreBlank` | crates/tornas/src/config/check/env.rs:41-43 | a line is passed over if and only if it is all white space or starts with a hash sign or a semicolon |
| `EnvFile.ExportIsRefused` | crates/tornas/src/config/check/env.rs:44-49 | a line that starts with the word export is refused |
| `EnvFile.NoEqualsIsRefused` | crates/tornas/src/config/check/env.rs:50-56 | any other line without an equals sign is refused, and quoted without the white space around it |
| `EnvFile.NameIsChecked` | crates/tornas/src/config/check/env.rs:50-68 | the trimmed text before the first equals sign must be a valid name; the trimmed text after it gives the value |
| `EnvFile.NamesAreNames` | crates/tornas/src/config/check/env.rs:58-62 | samples of what is a name and what is not |
| `EnvFile.ValuesAreUnquoted` | crates/tornas/src/config/check/env.rs:69-83 | single quotes are taken off and nothing in them is changed; double-quoted text is unescaped; other text stays |
| `EnvFile.UnescapeInvertsEscape` | crates/tornas/src/config/check/env.rs:76-77 | the parser's two replacements undo the template's two, for every text |
| `EnvFile.PairReadsBack` | ansible/roles/tornas/templates/tornas.env.j2:3-9 | one printed setting is classified as that name and value |
| `EnvFile.RenderParsesBack` | crates/tornas/src/config/check/env.rs:28-90 | parsing a rendered file gives back all names, values and line numbers with no errors if and only if no value contains a line feed |
| `EnvFile.FindBadValues` | crates/tornas/src/config/check/env.rs:130-184 | with an honest checker the loop ends in a passing run within its bound and its findings are exactly the bad lines, each once; in any case it reports at most one finding per round |
| `Extra.Parse` | crates/stremio/src/extra.rs:21-29 | the loop over segments computes the parse function |
| `Extra.DecodeInvertsEncode` | crates/stremio/src/extra.rs:66-70 | decoding inverts any encoder that escapes `%`, `&` and `=` |
| `Extra.BareKeysAndEmptyPieces` | crates/stremio/src/extra.rs:24-27 | a piece without an equals sign is a key with an empty value, and an empty piece counts for nothing |
| `Extra.FirstEqualsSplits` | crates/stremio/src/extra.rs:25 | later equals signs belong to the value |
| `Extra.OthersStandForThemselves` | crates/stremio/src/extra.rs:66-70 | every other character, and a percent sign without an escape behind it, stands for itself |
| `Extra.EscapesAreHexadecimal` | crates/stremio/src/extra.rs:66-70 | an escape in lower and one in upper case |
| `Extra.PrintedParsesBack` | crates/stremio/src/extra.rs:21-29 | any list of pairs, encoded, joined and ended by the suffix, parses back to the same list in order |
| `Extra.UnsuffixedParsesBackIff` | crates/tornas/src/media_catalog.rs:162-173 | printed by the path encoder without the suffix, the list comes back if and only if its last value does not end in the suffix, and otherwise that value loses it |
| `SourceAcl.ClientIp` | crates/tornas/src/http/middleware/source_acl.rs:121-137 | the right-to-left loop with its early exits computes the client function |
| `SourceAcl.ClientIsRightmostUntrusted` | crates/tornas/src/http/middleware/source_acl.rs:118-137 | the client is the unmapped peer unless that is a trusted proxy, and else the unmapped rightmost parseable hop outside the trusted ranges, if there is one; it is itself a trusted proxy only if there is none |
| `SourceAcl.SurroundedHop` | crates/tornas/src/http/middleware/source_acl.rs:128-131 | a space in front of a hop, or quotes around it, make no difference to what it says |
| `SourceAcl.LastHopDecides` | crates/tornas/src/http/middleware/source_acl.rs:128-136 | told through the library's parsers: behind a trusted peer the last hop decides when it says an address outside the trusted ranges, with a space after the comma, in quotes, with a port or in brackets, whatever stands before it |
| `SourceAcl.ProxyHopIsPassed` | crates/tornas/src/http/middleware/source_acl.rs:132-134 | a last hop that says a trusted proxy's address is passed over |
| `SourceAcl.NothingReadMeansPeer` | crates/tornas/src/http/middleware/source_acl.rs:125-136 | without a header, or with nothing in it that reads as an address, the client is the peer, and such a hop is passed over |
| `SourceAcl.FrontMattersIff` | crates/tornas/src/http/middleware/source_acl.rs:128-136 | hops put in front change nothing when the rest names a client, and decide alone when it does not |
| `SourceAcl.ChainResolves` | crates/tornas/src/http/middleware/source_acl.rs:118-137 | a chain of trusted proxies resolves to the client the first of them saw, whatever header that client sent |
| `SourceAcl.MappedIsTheSame` | crates/tornas/src/http/middleware/source_acl.rs:83-93 | an IPv4 client is judged alike in plain and in mapped form |
| `SourceAcl.RangeIsInterval` | crates/tornas/src/http/middleware/source_acl.rs:108-116 | a range holds exactly the interval of addresses that agree in its prefix |
| `SourceAcl.PrivateRange` | crates/tornas/src/http/middleware/source_acl.rs:108-111 | 192.168.0.0/16 holds exactly 192.168.0.0 to 192.168.255.255 |
| `SourceAcl.CoveredExactly` | crates/tornas/src/http/middleware/source_acl.rs:108-111 | halving decides for any list of ranges whether they hold every address of a block |
| `SourceAcl.PermitsAllIff` | crates/tornas/src/http/middleware/source_acl.rs:108-111 | the ranges permit every address if and only if they cover both families, mapped addresses counting as IPv4 |
| `SourceAcl.ZeroRangeGrantsFamily` | crates/tornas/src/http/middleware/source_acl.rs:103-111 | in every list a range of prefix length zero grants its whole family |
| `SourceAcl.ShortcutMatchesRangesIff` | crates/tornas/src/http/middleware/source_acl.rs:103-106 | the shortcut agrees with "every address is permitted" if and only if it is taken just where both families are covered, and implies it if and only if it is not taken or they are |
| `SourceAcl.ShortcutTooWide` | crates/tornas/src/http/middleware/source_acl.rs:103-106 | a list with a private range, all of IPv4 and the local host: the shortcut is taken although an IPv6 address is in no range |
| `SourceAcl.ShortcutTooNarrow` | crates/tornas/src/http/middleware/source_acl.rs:103-106 | the halves of both families permit every address, and the shortcut is not taken |
| `Mount.MajorInverts` | crates/tornas/src/utils/mount.rs:46-48 | the major number of any encoded device is recovered |
| `Mount.MinorInvertsIff` | crates/tornas/src/utils/mount.rs:46-49 | the minor number is recovered if and only if the major has at most 12 bits |
| `Mount.DecodingLosesNothing` | crates/tornas/src/utils/mount.rs:46-49 | device numbers below 2^44 are the encoding of what they decode to |
| `Mount.PresenceAsksForDevice` | crates/tornas/src/utils/mount.rs:46-54 | the presence test looks up the very device that was encoded, and counts major 0 or no sysfs as present |
| `Mount.Unescape` | crates/tornas/src/utils/mount.rs:59-78 | the consuming loop computes the unescape function |
| `Mount.UnescapeInvertsKernel` | crates/tornas/src/utils/mount.rs:59-78 | unescaping inverts the kernel's octal escaping, for every path |
| `Mount.OtherBackslashesStay` | crates/tornas/src/utils/mount.rs:64-72 | a backslash without an octal number of at most 255 behind it stays, with what follows it |
| `Mount.NoOctalNumbers` | crates/tornas/src/utils/mount.rs:65-70 | samples of what is such a number and what is not |
| `Mount.WideNumbersAreNone` | crates/tornas/src/utils/mount.rs:86 | a number that does not fit 64 bits is no device number |
| `Mount.TableAnswersTopmost` | crates/tornas/src/utils/mount.rs:56-89 | read from the table the kernel prints, the answer is the device of the last row for the path, and none if there is no such row |

## Left out

- librqbit itself (peers, hashing, DHT), TMDB, HTTP fetches, magnet resolution, mDNS, DLNA, TLS and routing: network and library code.
- The checks of an add request before its torrent is resolved (shape of the IMDb id, number of sources, base64), and the choice of the video file: single-branch facts.
- Database errors in the middle of an operation, and the event log: a statement of the model always completes. Of file errors, the pause file's, a reload's piece map's and the loading of sources are modelled.
- Metrics, logs, telemetry, the dashboard, the TUI and the view records: no decision depends on them.
- Restarting under systemd when the host sees the disk again, and the wake-up timers: the checks may run at any time.
- Size parsing and printing with floating point, `suggest` and `flag_in` of the environment check, the search, genre and skip accessors of path arguments: little to state.
- The URL, IP address, TOML, JSON and TMDB parsers: parameters, or not part of this model.
- Trackers.NormalizeIdempotent: holds for a URL library that reads a printed canonical URL back as itself (`Lawful`, met by `LawfulParserExists`); the library is not modelled.
- Trackers.MergeGuarantees: the per-source statistics of a refresh are not modelled; canonical form, and only that, relies on `Lawful` as well.
- Trackers.CurrentIsClean: relies on `Lawful`; the settings are taken not to change between refreshes, and a loaded cache is any list.
- Interleave.BudgetSafety: the catalog is meant; bytes on disk are the session's business, and 64-bit sums are required not to overflow at the start (`Planner.PlanFitsIff` says what happens when they do).
- Enforcement.PassPausesEverything: the session calls of the pass succeed and no reload begins on a torrent it has not reached yet; `Enforcement.PassPausesEverythingIff` is without the second condition. A pass whose calls fail is repeated five seconds later.
- QueueRuns.BoundThroughoutIff: each operation is one step whose session calls succeed; `Slots.BoundHoldsIff` is about their interleaving.
- Interleave.NextKeeps: a step runs from one await to the next; the piece maps and trackers of torrents are abstracted to the paused flag there.
- Eviction.MakingRoomIsSafe: the floor is stated in planned bytes (`Eviction.FloorMetIff` says what is deleted); a download that is not complete frees less than its size. Protection is that of the snapshot the plan was made from; a movie touched while the plan is being carried out can still go.
- Queue.BalanceKeepsBound: the bound is for the end of a pass; part way through, older torrents are started before younger ones are paused. Torrents in error or without a row are outside the queue (`Queue.ActiveAfterBalance`), which `QueueRuns.BoundThroughoutIff` takes into account.
- Reload.ReloadPreserves: the session's spot check of a restored piece map is taken to accept it; live peers handed to the re-added torrent are left out.
- TorrentEngine.Engine.AddMovie: the session is taken not to know the hash when the real add is made, as the listing call has just reported.
- TorrentEngine.Engine.FinishDownload: waiting for completion is left out; the method begins when the session reports it.
- PauseFile.NeverTorn: a write that fails part way (disk full) is an interrupted store; the JSON text of a pause is one value.
- EnvFile.RenderParsesBack: the conditional lines of the template are items of the list or not; a comment line must not end in a backslash or carriage return, as the template's do not.
- EnvFile.FindBadValues: the child process and the mapping from its message to a variable are one `Checker`; unknown, duplicate and missing variables are reported elsewhere and are not modelled.
- Extra.PrintedParsesBack: characters stand for bytes; replacing malformed UTF-8 after decoding is left out.
- SourceAcl.ClientIp: how the library reads one address, and the parsing of the configured ranges, are parameters.
- Mount.TableAnswersTopmost: comparing two paths is a parameter; the columns after the mount point are one text.
