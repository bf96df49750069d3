# Video cut list: verified model

This project models the parts of the video cut list server whose correctness depends on interleaving, crashes, partial
failure or unbounded input, and proves what they promise.

- **Durable jobs** (`Jobs`, `SchedulerModel`, `SchedulerInvariants`, `SchedulerTheorems`, `SchedulerWitness`, `Scheduler`): the job table
  with its conditional updates, and the scheduler around one mutex. Every critical section and every SQL statement or
  transaction is one event of a transition system; workers, cancellers, shutdown, changing limits, crashes and restarts
  interleave freely, and a durable write may fail before it commits or, in its read-back, afterwards. `Scheduler` is the
  object itself; each of its methods is proved to be events of that system.
- **Export publication and restart** (`PublicationModel`, `PublicationInvariants`, `PublicationSteps`,
  `PublicationTheorems`, `PublicationWitness`, `Exporter`, `Artifacts`): manifests with inode identities, no-replace
  rename, the compare-and-swap on the job row, rollback, retention by recorded identity or by path, downloads, batch
  archives, outside processes that create and delete files, a crash between any two steps, and `Reconcile` followed by
  `Recover`. `Exporter` holds the publish,
  rollback, removal and recovery loops, each proved to be a chain of events of that system; `Artifacts` is the
  in-memory registry with its streams and retention sweep.
- **Preview cache and stream** (`PreviewCache`, `Preview`): leases, validated publication without replacement, bounded
  eviction, the tee that feeds client and cache, and process slots.
- **Indexes and pages** (`MediaIndex`, `Paging`): the folder index kept by scans, root removal and migration; browsing;
  the permission-filtered, scan-limited cursors of the MCP tools.
- **Algorithms** (`Timestamps`, `Chapters`, `Ranges`, `Candidates`, `ArchiveNames`, `Transport`): checked timestamp
  arithmetic and chapter lists, the complement of cut ranges, greedy candidate acceptance, collision-free archive
  entry names, the fixed-window rate limiter and the session table.

`Prelude`, `Sorting`, `Numerals` and `Text` are shared vocabulary. A run is a finite sequence of states joined by events
from an initial state; theorems about runs hold for every such sequence. `dafny verify dfyconfig.toml` checks everything.

## Assumptions

- `jobs.id` is a primary key, batch and job identifiers are fresh and of different shapes, and identifiers hashed from a
  root alias and a path are injective.
- `created_at` is an opaque ordered key: claims take the least `(created_at, id)`, which is not claimed to be
  chronological.
- Clocks do not run backwards. A new file has a new inode, and outside processes do not link to inodes of the program.
- Catalog identifiers are non-empty and valid as cursors, as the identifiers that the program generates are.
- A check of a directory entry followed by its removal is one step, and removing an owned file succeeds.
- Publication has no clock: retention may strike a registered artifact at any time.
- Validators, authorisation and runners are arbitrary: their verdicts are inputs.

## Where the code and its promises part

Each of these is a lemma below that says exactly when it happens, with a concrete run or input for which it does.

- `Scheduler.Cancel` can commit and still fail in its read-back; a runner that was entered or about to be is then not
  cancelled (`CancelReachesContextIff`, `RunnerGoesOn`), while one whose row has yet to be looked at never starts
  (`CancelledBeforeLookNeverEnters`). The store-level `Cancel`, which the job use case calls, never reaches a context and
  can answer "invalid transition" for an active job that was claimed in between (`StoreCancelRefusesActiveIff`,
  `StoreCancelRefused`).
- A plain `Submit` of rows that name a proposal extends a bound proposal (`BoundProposalStepIff`, `BoundProposalGrows`). No
  production caller does this.
- A claim whose commit is reported as failed leaves a running row that no worker owns (`ClaimOwnedIff`,
  `ClaimWithoutOwner`); the next restart fails it.
- In merge mode the deferred cleanup clears the manifest before it removes the output, so that a crash in between leaves
  an output that no manifest lists (`RollbackExposesIff`, `MergeOrphan`). Separate mode has no such window
  (`SeparateAlwaysListed`).
- `Reconcile` walks the configured directories only. A running job whose manifest lies elsewhere is failed and keeps
  manifest and outputs (`StrandedIffUnconfigured`, `Stranded`); while the configuration keeps its directories this cannot
  happen (`FailedHasNoManifest`).
- After a transient failure of the terminal write, or of the read that follows a lost one, a job can end up cancelled with
  its published outputs in place until a restart (`CancelledKeepsOutputsIff`, `CancelledWithOutputs`).
- A download request registers the paths of a result without its manifest and without looking at its expiry, and an
  archive that is reused or fails to open leaves its path registered as well. When no manifest is registered for the job,
  because retention took it or because the last restart could not inspect it (`SweepMeans`), retention then removes
  whatever lies at those paths: a file of an outside process or the output of another job (`TakesForeignIff`,
  `ForeignFilesSurvive`, `SucceededOutputsStayIff`; `ForeignFileTaken`, `OtherJobsOutputTaken`). Without such requests it
  never does (`ForeignFilesSurviveWithoutDownloads`).
- Adopting the outputs of a succeeded job stops at the first entry that cannot be inspected, so that a broken entry behind
  it goes unnoticed (`AdoptionMeans`, `AdoptionOverlooks`).
- White space before the time of a chapter line without an arrow makes the title begin with the end of the time
  (`LeadingSpaceIff`), since the offset of the title forgets it.

## Model

| member | source | states |
|---|---|---|
| Jobs.InsertAllAddsExactly | internal/jobs/scheduler.go:139-148 | an admission transaction that commits adds exactly its own rows, as many as requested, and leaves every other row alone |
| Jobs.InsertAllRow | internal/jobs/scheduler.go:217-238 | row i of an admitted batch is request i, validated, with its creation stamp, in the queued state with no result and no error |
| Jobs.InsertAllKeepsKeys | internal/jobs/scheduler.go:139-148 | admission keeps the primary key and the unique index over proposal and item |
| Jobs.InsertAllCounts | internal/jobs/scheduler.go:131-148 | admission raises queued-plus-running by exactly the batch size |
| Jobs.InsertAllIff | internal/jobs/scheduler.go:139-148 | an insert loop goes through exactly when every job is well formed and new and no two of batch and table name the same proposal item |
| Jobs.TransitionEvolves | internal/jobs/jobs.go:133-151 | a conditional update is a legal piece of history whatever fault it meets: identity kept, states only forward, terminal rows frozen |
| Jobs.BatchStateMeaning | internal/jobs/jobs.go:153-175 | each derived state of a batch is read from its children: succeeded when all are, failed or cancelled when all are terminal and some failed or, none having failed, some was cancelled, running or queued before; progress is the terminal share |
| Jobs.BatchProgressMonotone | internal/jobs/jobs.go:153-175 | over any history without new children progress never decreases and a terminal batch verdict is final |
| SchedulerInvariants.NextInv | internal/jobs/scheduler.go:107-568 | every event keeps the scheduler invariant, and every event only moves the table forward |
| SchedulerTheorems.RunInv | internal/jobs/scheduler.go:92-568 | the invariant holds in every state of every run |
| SchedulerTheorems.RunEvolves | internal/jobs/jobs.go:108-183 | between any two points of a run, across crashes and restarts, no row vanishes or changes identity, states only move forward and terminal rows never change |
| SchedulerTheorems.RunnerEnteredAtMostOnce | internal/jobs/scheduler.go:375-428 | across all workers, faults and restarts no job's runner is entered twice |
| SchedulerTheorems.SucceededCarriesItsResult | internal/jobs/scheduler.go:430-470 | a succeeded row carries the result its runner produced or the one rebuilt from its manifest, never the scheduler's placeholder |
| SchedulerTheorems.RunBatchProgress | internal/jobs/jobs.go:153-175 | batch progress never decreases over a run that adds no child, and a terminal verdict stays |
| SchedulerTheorems.AcknowledgedCancelIsNeverLost | internal/jobs/scheduler.go:349-365 | once Scheduler.Cancel has succeeded, no worker is in or about to enter the job's runner on an uncancelled context |
| SchedulerTheorems.LostCancelWasSilent | internal/jobs/scheduler.go:349-365 | a runner that goes on for a job cancelled in the table was cancelled by the store-level call or by a Cancel whose read-back failed |
| SchedulerTheorems.CancelReachesContextIff | internal/jobs/scheduler.go:349-365 | cancelling a running job commits unless the write fails first; wherever its worker stands, an uncancelled context is cancelled exactly when the read-back succeeds too, and otherwise a worker in the runner or about to enter it goes on |
| SchedulerTheorems.CancelledBeforeLookNeverEnters | internal/jobs/scheduler.go:405-416 | a job that turns terminal between its claim and the worker's look at the row never enters its runner, whether or not the context was cancelled |
| SchedulerWitness.RunnerGoesOn | internal/jobs/jobs.go:133-143 | a run that ends with a cancelled job whose runner goes on uncancelled |
| SchedulerTheorems.CancelRefusesOnlyTerminal | internal/jobs/scheduler.go:349-365 | Scheduler.Cancel answers "invalid transition" only for a terminal job |
| SchedulerTheorems.StoreCancelRefusesActiveIff | internal/jobs/jobs.go:108-117 | between any two points of a run where it reads and where it writes, the store-level Cancel refuses an active job exactly when the queued job was claimed in between |
| SchedulerWitness.StoreCancelRefused | internal/jobs/jobs.go:108-117 | a run with such a refusal |
| SchedulerTheorems.BatchCancelSettles | internal/jobs/scheduler.go:300-342 | whatever interleaves with it, once every job that CancelBatch read was cancelled or refused as settled, all of them are terminal and stay so |
| SchedulerTheorems.NoClaimAfterStop | internal/jobs/scheduler.go:278-298 | after stop no queued row starts running and no worker takes a job |
| SchedulerTheorems.InFlightSeesShutdown | internal/jobs/scheduler.go:278-298 | every job in flight at shutdown and not already cancelled sees the shutdown as its cause as long as its context lives |
| SchedulerTheorems.TargetPrecedence | internal/jobs/scheduler.go:450-470 | for every error and cause the exact state, result and code: a produced result wins over everything, then shutdown, then a user's cancellation, then the runner's own word |
| SchedulerTheorems.ClaimWithinLimit | internal/jobs/scheduler.go:375-383 | each claim leaves the jobs in flight within the worker limit then in force, under any history of limits |
| SchedulerTheorems.ClaimOwnedIff | internal/jobs/scheduler.go:536-568 | a claim leaves the row running, and a worker owns it exactly when the commit was reported as done |
| SchedulerWitness.ClaimWithoutOwner | internal/jobs/scheduler.go:536-568 | a run that ends with a running row that no worker owns |
| SchedulerTheorems.WorkerCount | internal/jobs/scheduler.go:254-276 | while started and not stopped the counter equals the live workers and is never below the limit; a worker retires only above it |
| SchedulerTheorems.GrowthWithinCapacity | internal/jobs/scheduler.go:107-215 | any event that raises queued-plus-running is an admission and leaves it within the capacity then in force |
| SchedulerTheorems.SubmitAllOrNothing | internal/jobs/scheduler.go:107-158 | a submission leaves the table untouched or queues every requested row and changes nothing else |
| SchedulerTheorems.SubmitAdmittedIff | internal/jobs/scheduler.go:107-158 | a submission is admitted exactly when the scheduler is not stopped, the batch is not empty, it fits into the capacity beside the active jobs, and every job of it is acceptable |
| SchedulerTheorems.ProposalAdmittedIff | internal/jobs/scheduler.go:160-215 | a proposal is admitted exactly when it is not bound yet and its batch consists of its own export jobs and would be admitted |
| SchedulerTheorems.RestartInterrupts | internal/jobs/jobs.go:177-183 | a restart fails exactly the rows still running, as interrupted, and changes no other |
| SchedulerTheorems.AdmissionProposalIff | internal/jobs/scheduler.go:139-148 | an admitted batch changes a proposal's jobs exactly when one of its jobs names the proposal |
| SchedulerTheorems.BoundProposalStepIff | internal/jobs/scheduler.go:160-215 | a bound proposal keeps its jobs under every event except an admitted plain submission that names it |
| SchedulerWitness.BoundProposalGrows | internal/jobs/scheduler.go:107-158 | a run in which a plain submission adds a job to a bound proposal |
| SchedulerTheorems.ProposalBoundForever | internal/jobs/scheduler.go:175-183 | once a proposal has jobs every later SubmitProposal answers with that same set |
| Scheduler.Scheduler.CountActive | internal/jobs/scheduler.go:131-137 | the count that admission checks is the number of queued and running rows |
| Scheduler.Scheduler.Insert | internal/jobs/scheduler.go:139-148 | the insert loop yields the table with the whole batch, or nothing at the first refusal |
| Scheduler.Scheduler.Submit | internal/jobs/scheduler.go:107-158 | the call is one submit event with the outcome that the admission rules give |
| Scheduler.Scheduler.SubmitProposal | internal/jobs/scheduler.go:160-215 | the call is one proposal event: the bound rows, or the outcome of admitting the exact batch |
| Scheduler.Scheduler.StartWorkers | internal/jobs/scheduler.go:270-276 | spawns exactly the workers missing up to the limit |
| Scheduler.Scheduler.Start | internal/jobs/scheduler.go:239-250 | starts once, and not after stop |
| Scheduler.Scheduler.SetLimits | internal/jobs/scheduler.go:252-268 | valid limits are applied at once unless stopped, with the workers they call for |
| Scheduler.Scheduler.Shutdown | internal/jobs/scheduler.go:278-298 | the loop over registered jobs interrupts each of them with the shutdown cause, once |
| Scheduler.Scheduler.Cancel | internal/jobs/scheduler.go:349-365 | read, conditional write and context cancellation are the three cancel events in that order |
| Scheduler.Scheduler.CancelBatch | internal/jobs/scheduler.go:300-342 | without interleaving, success means every active job of the batch is cancelled; a missing batch is reported; no other row is touched in any case |
| Scheduler.Scheduler.NextQueued | internal/jobs/scheduler.go:536-549 | finds the queued row least in creation key and id, or none exactly when nothing is queued |
| Scheduler.Scheduler.WorkerTop | internal/jobs/scheduler.go:375-383 | the top of the worker loop retires exactly when stopped or above the limit, otherwise claims |
| Scheduler.Scheduler.Register | internal/jobs/scheduler.go:405-411 | registers the context, already cancelled when stopped |
| Scheduler.Scheduler.Deregister | internal/jobs/scheduler.go:418-427 | captures the cause and removes the registration in one section |
| Scheduler.Scheduler.ReadTerminalState | internal/jobs/scheduler.go:472-490 | up to three reads; found exactly when the row exists and one of them succeeds |
| Scheduler.Scheduler.PersistTerminal | internal/jobs/scheduler.go:492-511 | up to three attempts store the terminal state exactly when the row is running and not all of them fail before they commit |
| Scheduler.Scheduler.Finalize | internal/jobs/scheduler.go:430-448 | the terminal state is stored, with result and code, exactly when the row is running, one of three reads finds it and one of the write attempts gets through; the table is unchanged otherwise, and the worker is idle |
| PublicationSteps.NextInv | internal/export/export.go:217-536 | every event of publication, cancellation, retention, outside interference, crash and recovery keeps the publication invariant |
| PublicationTheorems.RunInv | internal/export/artifacts.go:405-524 | the publication invariant holds in every state of every run |
| PublicationTheorems.RestartTheorem | internal/export/artifacts.go:405-524 | after Reconcile and Recover, from any state a crash leaves, nothing is running, remaining manifests in configured directories belong to archives, succeeded or earlier stranded jobs, completed jobs have their valid outputs, and no recorded output of a failed, cancelled or unknown job survives |
| PublicationTheorems.StrandedIffUnconfigured | internal/export/artifacts.go:411-460 | a restart fails a still running job of which it found a manifest, and leaves manifest and outputs, exactly when the manifest lies outside the configured directories |
| PublicationWitness.Stranded | internal/export/artifacts.go:411-460 | a run in which that happens, with the recorded output still there |
| PublicationTheorems.FailedHasNoManifest | internal/export/artifacts.go:405-524 | while restarts keep the directories of existing manifests, no failed or queued job ever has a manifest, at any point of any run |
| PublicationTheorems.SucceededReportsItsManifest | internal/export/artifacts.go:494-519 | a succeeded job whose manifest stands reports exactly the names that the manifest lists |
| PublicationTheorems.SucceededHasResult | internal/export/artifacts.go:494-519 | in every state of every run a succeeded job has a result to show |
| PublicationTheorems.VisibleIsListed | internal/export/export.go:327-420 | in every state a visible output is listed with its inode in its owner's manifest, except in the merge rollback window and what a crash there left |
| PublicationTheorems.SeparateAlwaysListed | internal/export/export.go:327-420 | in runs of separate mode every visible output is listed, without exception |
| PublicationTheorems.RollbackExposesIff | internal/export/export.go:232-243 | dropping the manifest during rollback exposes an output exactly in merge mode with the output still visible |
| PublicationWitness.MergeOrphan | internal/export/export.go:232-243 | a concrete run that ends with an output on disk that no manifest lists |
| PublicationTheorems.CancelVersusPublish | internal/projects/batch_export.go:137-159 | once a runner has returned without a transient failure the job succeeded with its named outputs kept, or was cancelled with neither output nor manifest left |
| PublicationTheorems.CancelledKeepsOutputsIff | internal/projects/batch_export.go:137-159 | over all runs, of a job that is cancelled once its runner has returned an output that nobody else took is still there, listed in the manifest, exactly when the terminal write or the read after it met a transient failure |
| PublicationWitness.CancelledWithOutputs | internal/projects/batch_export.go:147-158 | a run that ends with a cancelled job that has manifest and output |
| PublicationTheorems.DeletesOnlyRecorded | internal/export/artifacts.go:362-403 | no step of the program replaces a directory entry; an entry it removes is recorded by name and inode for the very job the step is about, unless the step goes by path |
| PublicationTheorems.TakesForeignIff | internal/export/artifacts.go:778-791 | a step takes an entry that was not born for its job exactly when it goes by path and finds such a file there |
| PublicationTheorems.SweepMeans | internal/export/artifacts.go:835-887 | retention goes by path only for a job that has no manifest on disk, or one that the last restart found and did not register |
| PublicationTheorems.ForeignFilesSurvive | internal/export/destinations.go:106-135 | over any stretch of a run without outside steps a file of an outside process stays exactly when no removal by path hits its entry |
| PublicationTheorems.ForeignFilesSurviveWithoutDownloads | internal/export/destinations.go:106-135 | in runs without download requests and discarded archives it always stays |
| PublicationWitness.ForeignFileTaken | internal/runtime/services.go:270-297 | a run in which a repeated download of an expired job makes retention remove an outside file |
| PublicationTheorems.SucceededOutputsStayIff | internal/export/artifacts.go:835-887 | apart from retention of their own job, outside processes and restart cleanup, outputs of a succeeded job leave exactly by a removal by path |
| PublicationWitness.OtherJobsOutputTaken | internal/runtime/services.go:270-297 | a run in which retention of one job removes the output of another that has succeeded |
| Exporter.ChainToInv | internal/export/export.go:115-536 | whatever an exporter method does keeps the publication invariant |
| Exporter.Store.RemoveOne | internal/export/destinations.go:106-114 | an entry is removed only while it is the recorded file |
| Exporter.Store.CleanupManifest | internal/export/artifacts.go:229-235 | removes exactly the owned listed outputs and then the manifest, as a chain of recovery events |
| Exporter.AdoptionMeans | internal/export/artifacts.go:628-668 | outputs are registered exactly when every entry is in order, and cleaned up exactly when the first that is not is broken rather than impossible to inspect |
| Exporter.AdoptionOverlooks | internal/export/artifacts.go:640-664 | two entries of which the second is missing and yet stays unnoticed |
| Exporter.DecideExactly | internal/export/artifacts.go:412-520 | the branch taken is determined by owner, expiry and first flaw: what is cleared, completed and registered, each as an if and only if |
| Exporter.Store.HandleManifest | internal/export/artifacts.go:412-520 | one manifest is cleared, completed or registered exactly when its job's state, its expiry and the first flaw among its files call for it, and nothing else changes |
| Exporter.Store.Reconcile | internal/export/artifacts.go:407-524 | over all manifests of the configured directories, in terms of the state at start-up: exactly the running jobs with intact outputs succeed, with the listed names as result; exactly the expired, damaged, cancelled and ownerless manifests go, and with them exactly their recorded outputs; exactly what is flawless is registered |
| Exporter.Store.Recover | internal/jobs/jobs.go:177-183 | start-up as a whole: rows, results, manifests, files and registrations are exactly what the state at start-up calls for; what was running is succeeded if intact in a configured directory and failed otherwise; the invariant holds |
| Exporter.Store.Announce | internal/export/artifacts.go:310-358 | the manifest lists every planned output with its inode before the next rename |
| Exporter.Store.Rename | internal/export/destinations.go:126-135 | the rename succeeds exactly on a free name and replaces nothing |
| Exporter.Store.ChooseAnother | internal/export/export.go:393-404 | a taken name is replaced by another candidate for the same file |
| Exporter.Store.PublishOutput | internal/export/export.go:369-405 | the output appears under the first of its candidate names that is free; it stays unpublished, and every file as it was, exactly when a hundred candidates are taken |
| Exporter.Store.TryOnce | internal/export/export.go:369-405 | one attempt publishes exactly when the name is free; otherwise the next candidate is planned, unless it was the last attempt |
| Exporter.Store.HandleOutput | internal/export/export.go:334-419 | a planned output appears under its first free candidate or not at all when none is free; an unplanned one changes nothing |
| Exporter.Store.HandleAll | internal/export/export.go:334-420 | without a hard error each good output in turn got its first candidate that neither the directory nor an earlier output had, and what failed validation never shows |
| Exporter.Store.Complete | internal/export/export.go:432-445 | the final manifest lists exactly what was published |
| Exporter.Store.Rollback | internal/export/export.go:229-243 | a failed export removes exactly its own published files and its manifest, in the order of its mode |
| Exporter.Store.RemoveOutputs | internal/export/export.go:327-333 | the deferred loop removes exactly the owned outputs |
| Exporter.Store.Conclude | internal/export/export.go:217-243 | success writes the final manifest; failure restores files and removes the manifest |
| Exporter.Store.ExportSeparate | internal/export/export.go:295-448 | succeeds exactly when no hard error strikes and some good output finds a free candidate; then exactly the good outputs are published, each under its first free candidate in turn, and listed; otherwise every file is as it was |
| Exporter.Store.ExportMerge | internal/export/export.go:449-536 | succeeds exactly when the one output was generated and validated, finds a free candidate and is intact after the rename; then it alone is published and listed; otherwise every file is as it was |
| Exporter.Store.RemoveArtifacts | internal/export/artifacts.go:746-776 | removal after a lost swap takes exactly the owned outputs and then the manifest |
| Exporter.Store.RunQueuedSnapshot | internal/projects/batch_export.go:121-160 | in either mode and under every fault: the row succeeds, with exactly the right outputs as its result, exactly when the swap commits on a running row, and outputs and manifest are taken back exactly when a cancellation won and was read back |
| Artifacts.ArtifactStore.Open | internal/export/artifacts.go:792-832 | only a present, unexpired download opens, and the stream is counted for its job |
| Artifacts.ArtifactStore.Close | internal/export/artifacts.go:894 | closing a stream once gives back exactly its hold |
| Artifacts.ArtifactStore.CleanupJob | internal/export/artifacts.go:838-886 | a job with an open stream or an unreadable manifest is left alone; otherwise exactly its expired recorded artifacts go and the manifest with the last |
| Artifacts.KeptMeans | internal/export/artifacts.go:855-876 | exactly archives, unexpired artifacts and those that the manifest does not record stay registered |
| Artifacts.ArtifactStore.Cleanup | internal/export/artifacts.go:835-887 | every job is treated as if alone: exactly the expired recorded files of jobs without streams go, what is left registered is exact, and a manifest goes exactly with the last artifact of its job |
| PreviewCache.EvictionDecided | internal/preview/cache/cache.go:369-404 | eviction succeeds exactly when the leased files alone fit the limit |
| PreviewCache.LeaseAdded | internal/preview/cache/cache.go:165-169 | opening raises the lease count of its path to its number of unclosed readers |
| PreviewCache.LeaseDropped | internal/preview/cache/cache.go:183-204 | closing lowers it, and the path is free exactly with its last reader |
| PreviewCache.Store.OpenCheck | internal/preview/cache/cache.go:79-136 | an entry is offered exactly when present, non-empty and accepted; empty or rejected ones are removed |
| PreviewCache.Store.OpenLease | internal/preview/cache/cache.go:138-170 | a reader is leased only for the very file that was checked, and its bytes were validated by a commit for this key |
| PreviewCache.Store.Release | internal/preview/cache/cache.go:183-204 | the lease of exactly this reader is given back |
| PreviewCache.Store.Begin | internal/preview/cache/cache.go:213-230 | a partial is a new file that nothing else refers to |
| PreviewCache.Store.Write | internal/preview/cache/cache.go:232 | writing extends the partial and changes no byte any reader sees |
| PreviewCache.Store.Discard | internal/preview/cache/cache.go:235-247 | discarding removes the partial once and publishes nothing |
| PreviewCache.Store.CleanupPartials | internal/preview/cache/cache.go:350-362 | unfinished files go except those of active writers |
| PreviewCache.EvictionSpares | internal/preview/cache/cache.go:388-398 | leased files all stay and no file is altered |
| PreviewCache.EvictionOldestFirst | internal/preview/cache/cache.go:386-398 | whatever goes is no newer than any unleased file that stays |
| PreviewCache.EvictionNeeded | internal/preview/cache/cache.go:387-390 | with the newest removed file put back the limit is exceeded |
| PreviewCache.Store.EvictLocked | internal/preview/cache/cache.go:369-404 | exactly the shortest sufficient prefix of the unleased files goes, oldest first; failure exactly when leased files alone exceed the limit, and then they alone are left |
| PreviewCache.Store.Publish | internal/preview/cache/cache.go:292-332 | an existing entry wins unchanged; otherwise publication fits the limit after the least eviction, or leaves nothing of its own: all as it was when the file alone is too large, else the leased files |
| PreviewCache.Store.Commit | internal/preview/cache/cache.go:249-337 | only validated, uncancelled, unchanged content is published, once |
| Preview.Limits.Acquire | internal/projects/preview_limits.go:50-65 | a slot is given only below the limit then in force |
| Preview.Limits.Release | internal/projects/preview_limits.go:67-77 | a slot is given back at most once |
| Preview.Tee | internal/projects/preview.go:105-122 | exactly what partial and client get: all of every chunk up to the one that fails, of that one the part that was taken, and to the client nothing that the partial did not take in full |
| Preview.StreamPreview | internal/projects/preview.go:96-141 | commits exactly a clean uncancelled stream, with the outcome of publishing just the bytes that the client got; the slot goes back on every path |
| Preview.Request | internal/projects/preview.go:66-94 | a hit exactly for an accepted non-empty entry, a stream exactly on a miss with a free slot and a started process; every error path gives the slot back |
| MediaIndex.WalkDirectories | internal/db/media.go:48-58 | the scan of one path adds exactly its proper directory prefixes and ends with its parent |
| MediaIndex.Store.Sync | internal/db/media.go:27-88 | a scanned path holds the facts of its last record and is available, an unscanned row of the root keeps its facts and is unavailable, rows of other roots are unchanged; available folders equal the directory prefixes of available media |
| MediaIndex.Store.RemoveRoots | internal/db/media.go:90-115 | media of the removed roots become unavailable, nothing else changes, and the index still agrees |
| MediaIndex.Store.ReconcileRoots | internal/db/media.go:117-143 | exactly the media of configured roots that were available stay so, nothing else about any row changes, and the index still agrees |
| MediaIndex.SyncAgrees | internal/db/media.go:27-88 | rebuilding the folders of one root preserves the agreement for all roots |
| MediaIndex.MigrateFolders | internal/db/database.go:163-219 | the upgrade gives every row its parent, changes nothing else of it, and creates exactly the directories of available media |
| MediaIndex.IndexIsDetermined | internal/db/database.go:163-219 | paths alone determine parents and available folders, so migration builds the index that scans would |
| MediaIndex.BrowseItems | internal/db/media.go:203-232 | a page holds the next items of the folder, within the page limit, and a cursor comes back exactly when items remain, with a full page |
| MediaIndex.BrowseFolder | internal/db/media.go:156-239 | the pages of a folder together are its items in order |
| MediaIndex.BrowseAll | internal/db/media.go:156-239 | walking from the root ends and meets every available item exactly once and nothing else |
| Paging.List | internal/db/media.go:241-289 | a store page is the next rows after the cursor, and the next cursor is the last id exactly when rows follow |
| Paging.ListMedia | internal/mcp/media_tools.go:73-130 | the tool returns the page of the filtered scan, or refuses exactly bad cursors and limits |
| Paging.ListProjects | internal/mcp/project_tools.go:79-124 | the same page function for projects, despite a different loop exit |
| Paging.PageMeaning | internal/mcp/media_tools.go:89-130 | a page is exactly the kept rows between its two cursors; a short page with a cursor has read 500 rows, a full one ends with the last row read |
| Paging.PositionMeans | internal/db/media.go:241-289 | a query passes over exactly the rows up to its cursor, whether or not the row of the cursor still exists |
| Paging.AnswerMeans | internal/mcp/media_tools.go:89-130 | a row is on a page exactly when it passes the filter and lies between the two cursors |
| Paging.CursorAdvances | internal/mcp/media_tools.go:99-124 | each returned cursor is strictly after the one that asked |
| Paging.FollowingIsFiltering | internal/mcp/media_tools.go:73-130 | following cursors ends and the pages together are exactly the authorised matching rows in key order, for any page sizes |
| Timestamps.ParseTimestampExact | internal/projects/interchange/interchange.go:131-233 | a text is accepted with a value exactly when it is a well-formed clock whose digits, by their decimal places, denote it and it fits 64 bits; nothing wraps |
| Timestamps.FractionIsExact | internal/projects/interchange/interchange.go:197-202 | the milliseconds of a fraction of up to three digits, times the power of ten of their count, are a thousand times its digits |
| Timestamps.FormatShape | internal/projects/interchange/interchange.go:234-240 | the written form has two digits each for minutes and seconds, three for the fraction and at least two for the hours |
| Timestamps.TimestampRoundTrip | internal/projects/interchange/interchange.go:234-240 | every non-negative 64-bit time survives printing and reading |
| Chapters.Validate | internal/projects/interchange/interchange.go:241-254 | accepts exactly bounded, non-empty, ordered, disjoint segments within the duration |
| Chapters.ParseChapters | internal/projects/interchange/interchange.go:67-118 | both passes over the lines compute the parsed list or the error |
| Chapters.FillEnds | internal/projects/interchange/interchange.go:107-116 | missing ends become the next start or the duration, in place |
| Chapters.FilledMeans | internal/projects/interchange/interchange.go:107-116 | element by element: a missing end is the next start or the duration, and nothing else changes |
| Chapters.MarksRead | internal/projects/interchange/interchange.go:67-118 | a list of times and titles is accepted exactly when it is in order, and then each segment runs to the next time or to the end |
| Chapters.ArrowLineRead | internal/projects/interchange/interchange.go:86-98 | a line with an arrow reads as its three parts, however wide the gaps |
| Chapters.LeadingSpaceIff | internal/projects/interchange/interchange.go:86-98 | a line of a time and a title keeps its title exactly when nothing precedes the time |
| Chapters.LineEndingsIgnored | internal/projects/interchange/interchange.go:67-85 | DOS line endings make no difference |
| Chapters.ExportChapters | internal/projects/interchange/interchange.go:120-129 | writes one line per segment, exactly for orderly lists |
| Chapters.ChapterRoundTrip | internal/projects/interchange/interchange.go:67-129 | an orderly list reads back exactly if and only if it is non-empty, fits the duration and the size limit, and its titles are non-empty, trimmed and without line breaks |
| Ranges.ResolveRanges | internal/export/export.go:831-858 | the included segments, or their exact complement in the media, canonical and in bounds |
| Ranges.IncludedMeans | internal/export/export.go:831-837 | a segment counts unless it is explicitly excluded, and order is kept |
| Ranges.GapComplement | internal/export/export.go:843-857 | every instant is in exactly one gap or in an included segment, for unsorted and overlapping input |
| Ranges.CanonicalUnique | internal/export/export.go:843-857 | a canonical gap list is determined by the instants it covers |
| Ranges.GapsIgnoreOrder | internal/export/export.go:843-857 | the gaps do not depend on the input order nor on how ties are sorted |
| Ranges.GapsOfGaps | internal/export/export.go:843-857 | the gaps of the gaps are the coalesced segments |
| Ranges.ValidateSegments | internal/projects/model/projects.go:210-237 | accepts exactly lists in bounds, pairwise disjoint, with unique short ids and short labels, in any order |
| Ranges.LengthsAddUp | internal/export/export.go:831-858 | for validated segments the lengths of the resolved gaps and of the included segments add up to the duration |
| Candidates.AcceptCandidates | client/src/features/detection/model.ts:94-137 | each candidate is accepted or skipped once, skipped ones in input order with the right reason and blocked by something earlier; accepted ones are in bounds and clear; disjoint input gives sorted disjoint output |
| Candidates.SkipReasonMeans | client/src/features/detection/model.ts:56-92 | the reason for which a candidate is refused on its own account, each as an if and only if |
| Candidates.OverlapsIff | client/src/features/detection/model.ts:56-92 | ranges overlap exactly when they have an instant in common |
| ArchiveNames.UniqueName | internal/runtime/services.go:654-669 | the returned name was free and is taken; a taken name gets the least free suffix above its count, and the search ends |
| ArchiveNames.EntryNames | internal/runtime/services.go:472-520 | entry names are pairwise distinct for any input names, and a name is kept exactly when nothing before asked for it or got it |
| ArchiveNames.CandidateInjective | internal/runtime/services.go:661-668 | different suffixes give different candidates |
| ArchiveNames.CandidateShape | internal/runtime/services.go:654-669 | the suffix stands between stem and extension, or at the end of a name without one |
| Transport.Server.AllowRequest | internal/mcp/transport.go:547-566 | expired windows are dropped, a denied request stores nothing, an admitted one is counted in its window |
| Transport.Server.ExpireSessions | internal/mcp/transport.go:539-545 | exactly the sessions idle for the time-to-live go |
| Transport.Server.NewSession | internal/mcp/transport.go:485-500 | a session opens exactly when the live ones are below capacity |
| Transport.Server.ValidSession | internal/mcp/transport.go:502-518 | a check passes exactly for a live session of the same credential and refreshes it |
| Transport.Server.DeleteSession | internal/mcp/transport.go:520-537 | only the owner's session is deleted |
| Transport.WindowsBound | internal/mcp/transport.go:547-566 | over any trace windows of a credential start a minute apart, grants fall in their window, and no window admits more than the limit |
| Transport.AnyMinuteBound | internal/mcp/transport.go:547-566 | no minute, wherever it starts, admits more than twice the limit |
| Transport.DeniedIff | internal/mcp/transport.go:547-566 | over any trace a request is denied exactly when a window that is still running has used up the limit |
| Transport.ValidSessionMeaning | internal/mcp/transport.go:502-518 | a passing check names a session the same credential opened, did not close, and used within the time-to-live |
| Transport.ValidSessionLives | internal/mcp/transport.go:502-518 | a session that nobody closed passes the check of its credential whenever it was used less than the time-to-live ago |
| Transport.OpensIff | internal/mcp/transport.go:485-500 | over any calls a session opens exactly while fewer than the capacity are in use |
| Transport.SessionsBounded | internal/mcp/transport.go:485-500 | the session table never exceeds its capacity |

## Left out

- Processes, their arguments, pipes and error output; HTTP, routing, authentication and JSON; the SolidJS views; SQL text and
  migrations other than the folder index; CSV quoting; symbolic links, permissions and path escapes.
- Order of rows in listings that no property needs, such as the jobs of a proposal, and the retry of a failed export.
- Gap ranges after a JSON round trip, where a zero `Included` is read back as an exclusion.
- Closing a download stream twice, which gives back two holds; manifests without inode identities or malformed ones;
  platforms without inodes; a second process on the same directories, with a registry of its own.
- The branch of `ArtifactStore.Remove` without a manifest: it is called for cancelled jobs only, whose artifacts are
  registered together with their manifest and forgotten together with it.
- The checks that precede the execution of an export proposal; its deterministic identifiers only matter through the
  binding that `SubmitProposal` keeps.
- Cut list edit operations, revision counters, option defaults, preview windows and undo, which are easy.
- A rename that fails for another reason than a taken name, and a name template that fails; in separate mode the output is
  then passed over.
- Artifacts.ArtifactStore.CleanupJob: a removal that fails keeps its entry in the program; here removals succeed.
- Chapters.ParseChapters: text is a sequence of characters whose byte sizes are counted for the size limit only, so a line
  that starts with white space outside ASCII is cut at character and not at byte offsets; segment ids and inclusion flags,
  which chapter text does not carry, are dropped.
- MediaIndex.Store.Sync: a transaction that fails rolls back and is not modelled; identifiers are the alias and path they hash.
- Preview.Request: waiting for a slot is one attempt, since an attempt that fails changes nothing.
- PreviewCache.Store.Commit: files of other processes in the cache directory are not modelled, nor a failing directory walk.
- Scheduler.Scheduler.CancelBatch: runs without interleaving, so that no worker settles a job first; what holds with
  interleaving is `BatchCancelSettles`.
- Scheduler.Scheduler.Finalize: wake-up channels, time-outs and back-off are not modelled.
- Transport.Server.NewSession: the random identifier is an input.
