# Home gateway: verified models

A home gateway serves files from local directories, SMB shares and object stores, copies and mirrors between
them, keeps DNS records, limits logins and steers a torrent daemon. This project models the parts of it whose
behaviour is hardest to see from the code, and proves what they promise, for every input, every run and every
interleaving.

* **Copying a file.** `ParallelCopy` is the ranged copy as a state machine: a producer, a bounded channel, workers,
  a sticky cancellation, and devices that may write part of what they are given and fail at any call. A run that
  reports success has copied the file exactly, and every run ends. `FailedCopies` says what a failed run can leave.
  `CopyIO` holds the byte loops that the workers and the sequential copy consist of, and `ChunkCopies` ties the
  worker's loop to the worker's steps. `FileCopy` is the whole copy of one file between two shares, or within one,
  with its reservation and its directories.
* **Reservations, jobs, schedules.** `TransferLocks` and `Schedulers` are the objects with their locked sections, and
  machines over all orders of these sections. `Jobs` is a copy job with a record of every moment at which it can be
  inspected, `CopyPlans` the plan that it works off, and `SyncJobs` its body: it plans, copies step by step over two
  shares, and leaves known files behind.
* **The incremental mirror.** `Incremental` decides what needs copying and copies it. A run is described by one event
  for each listed file; what a complete run leaves behind, and that a second run has nothing to do, is proved from
  that. `OneShareMirrors` is about rules whose two paths lie on one share, and says which of them converge.
* **Shares and sessions.** `ShareTree` has the recursive directory operations on a tree of files. `Backends` adds that
  every call cleans the path that it is given, and makes directories through such calls; `Listings` lists trees
  through them. `SmbSessions` has the session of an SMB backend, with the leases of open streams.
* **Paths.** `Paths` has the normal form of relative paths, as segments, and what each of the code's path functions does
  to it; `Text` has the string functions underneath.
* **DNS records.** `Cloudflare` is the provider with its paged listing, and `Dns` the service with its cache.
* **Logins.** `Logins` has the list of recent failures, pruned in place, next to the full history, and bounds the
  failures that get through when logins overlap; `LoginOverlaps` does so for checks in any order.
* **Torrents.** `FileSelections` has the choice of files and its round trip through the daemon. `FileTrees` has the tree
  that the interface shows.

Times are integers, with 0 for an unknown time. Clocks, networks, devices and servers appear as values drawn
arbitrarily at each call, and ghost state records what was drawn: that a device failed, that a context was cancelled,
what a server was asked and what it answered. So a contract says not only what success means but exactly when there is
none; "without trouble" below is where nothing of the kind was drawn. An operation that the code runs under a mutex is
one method here, and one step of a machine where interleavings matter.

Where the code does something other than one would expect, the model follows the code, and a lemma says exactly when
it matters:

* the ranged copy carries over the first `size` bytes and the sequential one the whole source
  (`FileCopy.BranchesAgreeIff`);
* a ranged copy can fail and leave a wrong file of full length exactly when there is a second worker and a byte that
  is not zero before the last chunk (`FailedCopies.WrongFullLengthIff`), and the next mirror run takes that for the
  file unless it is stamped earlier than the source (`Incremental.HolesAreNotNoticedIff`);
* a file copied onto itself is emptied (`FileCopy.CopyOntoItself`);
* a mirror within one share converges, whatever the share holds, exactly when neither path lies below the other
  (`OneShareMirrors.ConvergesIff`); with the destination below the source it never has nothing to do and copies its own
  copies (`OneShareMirrors.NestedNeverSettles`, `OneShareMirrors.SecondRunCopiesTheCopies`), and with the destination
  above it the order of the listing can decide what a file gets (`Incremental.ListingOrderDecides`);
* making a directory on an SMB share reports success when the path is a file (`ShareTree.MkdirAllMeans`,
  `ShareTree.MkdirAllAcceptsFile`), while the copy engine's own way does not;
* the copy engine's way looks up every prefix of a path, and each is cleaned again, so that "a /b" makes "a" besides
  (`Backends.StraightIff`, `Backends.SpacedDirectoryIsNotStraight`);
* a directory whose name is all dots, slashes and backslashes once the white space at its end is gone keeps the listing
  of everything above it from ending, and below a directory other than the root nothing else does
  (`Listings.EndsIffNoReturn`); a file whose name ends in a space is mistaken for the one without it
  (`Incremental.ReadsItselfIff`, `Incremental.SpacedFileIsMistaken`);
* a copy item whose accepted path is found under another path loses the directories below it
  (`CopyPlans.OtherItemIsFlattened`, `CopyPlans.FlattenedFilesCollide`);
* "/" and "./" are not accepted as relative paths although "" and "." are (`Paths.AcceptedIff`,
  `Paths.RootSpellings`), and cleaning a path again changes it exactly when it has white space at its ends
  (`Paths.CleaningIsIdempotent`), as any accepted path may (`Paths.EveryFormComesUp`);
* with the root "/", however it is spelled, every download subdirectory is refused (`Paths.SlashRootRejects`);
* two different transfers can share a reservation, but only if the NULs in their backends' names and source paths
  differ in number; what the destination path holds never matters
  (`TransferLocks.SameTransferIff`, `TransferLocks.NulMakesKeysCollide`);
* a first write to a zone that was never listed leaves a partial cache, but for one case each
  (`Dns.FirstWriteIsPartial`, `Dns.FirstUpdateIsPartial`, `Dns.FirstDeleteIsPartial`);
* logins that are checked before another is recorded pass the limit together: `k` at a time put up to 9 + k failures
  into a window, and can (`Logins.EveryWindowIsLimited`, `Logins.BoundIsReached`); when checks come in another order
  than the readings of the clock, up to 8 + 2k (`LoginOverlaps.EveryWindowIsLimitedToo`, `LoginOverlaps.LimitIsReached`);
* changing the choice of one file turns a low priority of another into a normal one
  (`FileSelections.UnnamedKeepsStateIff`).

`dafny verify dfyconfig.toml` checks everything.

## Model

| member | source | states |
|---|---|---|
| `ParallelCopy.SuccessMeansCopied` | internal/storage/parallel.go:109-206 | In every interleaving, a copy that returns nil has left exactly the first `size` bytes of the source, each byte written once and counted once |
| `ParallelCopy.NeverWritesTwice` | internal/storage/parallel.go:158-189 | At every moment of every run no byte has been written twice, what was written is right, and the counter has not overrun what was handed out |
| `ParallelCopy.AlwaysTerminates` | internal/storage/parallel.go:112-190 | Runs are bounded by a number linear in the size, and a run that has not ended can go on without outside help: no deadlock |
| `ParallelCopy.SucceedsIffNoFault` | internal/storage/parallel.go:116-124 | The copy returns nil if and only if nothing cancelled it and no read or write failed or stalled |
| `ParallelCopy.CancelledByFault` | internal/storage/parallel.go:109-124 | The context is cancelled exactly when a step of the run was a fault or a cancellation from outside |
| `ParallelCopy.StepKeeps` | internal/storage/parallel.go:158-188 | Each step keeps the invariant: each byte is unsent, queued, in a worker's hands, written or dropped, in one place only, and dropped bytes mean a cancelled context |
| `ParallelCopy.StepDecreases` | internal/storage/parallel.go:158-188 | Each step of the copy uses up some of a measure of what is unsent, queued and in hand |
| `ParallelCopy.Execute` | internal/storage/parallel.go:158-206 | Executes any one interleaving to its end, with the outcome that the results above give it; it fails only if the context is cancelled, a device fails, or the source is shorter than the caller said, and always for a context that was cancelled before |
| `ParallelCopy.WorkerCount` | internal/storage/parallel.go:26-35 | There is at least one worker and at most sixteen, at most one for each core, and none that could have no chunk |
| `FailedCopies.WhatTheFileHolds` | internal/storage/parallel.go:158-206 | At every moment of every run the file has the source's bytes where they were written and zeros elsewhere, and its full length exactly when its last byte was written |
| `FailedCopies.FullLengthIsRightIff` | internal/storage/parallel.go:158-206 | A file of full length is right exactly when every byte that was not written is zero in the source |
| `FailedCopies.OneWorkerWritesInOrder` | internal/storage/parallel.go:158-206 | With one worker the file is the first part of the source at every moment of every run |
| `FailedCopies.HolesLieBeforeTheLastChunk` | internal/storage/parallel.go:158-206 | A file of full length has all of its last chunk, in every run |
| `FailedCopies.FailureCanLeaveFullLength` | internal/storage/parallel.go:112-206 | With two workers or more, for every error and every byte before the last chunk, some run fails with that error and leaves a file of full length that misses that byte |
| `FailedCopies.WrongFullLengthIff` | internal/storage/parallel.go:112-206 | Some run fails and leaves a wrong file of full length exactly when there are two workers or more, the source is as long as the caller was told, and some byte before the last chunk is not zero |
| `FailedCopies.EngineLeavesWrongIff` | internal/storage/parallel.go:26-35 | With the chunks, queue and workers that the engine chooses, a second usable core takes the place of the second worker |
| `ChunkCopies.UndisturbedWorker` | internal/storage/parallel.go:209-245 | A worker whose steps nobody disturbs ends as the contract of the chunk loop says: the whole chunk written and counted, or an error after a prefix of it |
| `CopyIO.ReadExactAt` | internal/storage/parallel.go:247-263 | Unless the device fails, the read succeeds exactly when the source reaches so far, also where the last bytes come with an end-of-file; success means the buffer holds the source's bytes of that range, and a bare end-of-file is never reported |
| `CopyIO.WriteExactAt` | internal/storage/parallel.go:265-278 | What reached the file is a prefix of the buffer at its offset, the whole of it on success, for any partial writes; only the device makes it fail |
| `CopyIO.CopyChunkAt` | internal/storage/parallel.go:209-245 | What reached the file is a prefix of the chunk in its place, the whole chunk on success, and the counter follows; it fails only for a cancelled context, a device, or a source that ends too early, and a cancelled context is noticed before anything is written |
| `CopyIO.CopyStream` | internal/storage/sync.go:384-408 | The sequential loop leaves a prefix of the source, the whole of it on success, and counts exactly its bytes; it fails only for a cancelled context or a device, and always for a context that was cancelled before |
| `FileCopy.CopyRanged` | internal/storage/parallel.go:58-207 | The ranged copy, between two shares or within one: on success the file that the target's text leads to holds the first `size` bytes, otherwise only that file and directories above it are affected; without trouble it fails exactly when there is no room for the target, the source is no file, or is shorter than `size`; the job's counter moves by what was reported |
| `FileCopy.CopySequential` | internal/storage/sync.go:372-408 | The sequential copy: on success the target holds the whole source as it is once the target has been emptied, otherwise only the target and directories above it are affected; without trouble it fails exactly when there is no room for the target or the source is no file |
| `FileCopy.CopyOneFile` | internal/storage/sync.go:324-409 | A copy is refused exactly when the key of its backends and paths is reserved, and changes nothing then. Any other is done, unless the context is cancelled or a share reports an I/O error, exactly when its directory can be seen to, there is room for its target, the source is a file and long enough, and the target is free or may be overwritten; a target that may not be gives a conflict. One that is done has put the bytes carried over where the target leads. No other file is touched, none at all without leave to overwrite; the reservation is always given back, and the byte counter moves by the bytes copied |
| `FileCopy.ApproachedKeeps` | internal/storage/sync.go:343-347 | Seeing to a target's directory takes nothing away |
| `FileCopy.BranchesAgreeIff` | internal/storage/sync.go:356-408 | In every run the ranged copy fails when the caller's size is above the source's, and otherwise carries over what the sequential one does exactly when the two are equal |
| `FileCopy.DeliveredWhereItLands` | internal/storage/sync.go:343-408 | For a target that is kept, below directories whose prefixes lead nowhere else, a copy leaves exactly the share with the missing directories above the target and the file at it |
| `FileCopy.KeptPrefixesLand` | internal/storage/sync.go:343-347 | That is so of a target each prefix of which is kept |
| `FileCopy.CopyOntoItself` | internal/storage/sync.go:372-408 | A copy of a file onto itself, when it is done, has gone the sequential way and has emptied the file |
| `FileCopy.CopyOntoItselfIsPossible` | internal/storage/sync.go:372-408 | Every file each prefix of whose path is kept can be copied onto itself that way |
| `TransferLocks.TransferLock.TryBegin` | internal/storage/transfer_lock.go:29-45 | A reservation succeeds exactly when the key is free, and takes it |
| `TransferLocks.TransferLock.Release` | internal/storage/transfer_lock.go:40-44 | Gives the key back and touches no other |
| `TransferLocks.SameTransferIff` | internal/storage/transfer_lock.go:19-26 | Transfers with one key are the same up to white space exactly when backends and source path hold as many NULs in both, whatever the destination path holds |
| `TransferLocks.KeyInjective` | internal/storage/transfer_lock.go:19-26 | Without NUL in backends and source path, keys are equal exactly when all four fields are, but for white space around them |
| `TransferLocks.OneCopyPerTransfer` | internal/storage/transfer_lock.go:19-45 | In every interleaving of any transfers the reserved keys are those of the copies in flight, no two copies in flight have the same backends and paths, and a try is refused exactly when its key is in flight |
| `TransferLocks.RefusedIff` | internal/storage/transfer_lock.go:36-39 | Without NUL in backends and source paths, a transfer is refused exactly when one with the same backends and paths is in flight |
| `TransferLocks.NulMakesKeysCollide` | internal/storage/transfer_lock.go:19-26 | An instance in which the NULs differ: two different transfers share a key |
| `CopyPlans.DedupeCopySteps` | internal/storage/sync.go:307-322 | Computes the steps whose key comes first, which are those whose pair of paths comes first if no source path has a NUL; targets may |
| `CopyPlans.DedupeKeepsPairs` | internal/storage/sync.go:307-322 | Deduplication keeps every pair of paths, once, and adds none |
| `Jobs.SyncJob.constructor` | internal/storage/sync.go:121-129 | A new job is queued with all counters at zero |
| `Jobs.SyncJob.SetStatus` | internal/storage/sync.go:474-483 | Moves a job that is not over to a later status; a final one clears the current path |
| `SyncJobs.ReportTotals` | internal/storage/sync.go:192-200 | Sets the totals to the number and the summed sizes of the steps |
| `Jobs.SyncJob.SetCurrent` | internal/storage/sync.go:485-490 | Changes the current path only |
| `Jobs.SyncJob.AddBytes` | internal/storage/sync.go:492-495 | Adds any number of bytes to the byte count, and changes nothing else |
| `Jobs.SyncJob.CountFile` | internal/storage/sync.go:227-252 | Counts one file as copied, skipped or failed |
| `SyncJobs.Cancel` | internal/storage/sync.go:148-161 | Cancels the context of a job that is not over, and only then |
| `SyncJobs.CopyStep` | internal/storage/sync.go:212-252 | One step: refused exactly when its key is reserved, else copied, if nothing stands in its way under the request's own overwrite flag, or failed, and the job reports its path, its bytes and its outcome |
| `SyncJobs.CopySteps` | internal/storage/sync.go:206-263 | The loop ends as failed exactly after a failed copy, which without trouble is one that something stood in the way of, as completed after all, and as canceled only if the context was cancelled between files, which one cancelled before sees at once; what it put at targets is there, and nothing else in the destination is lost or changed, no file at all without leave to overwrite |
| `SyncJobs.RunJob` | internal/storage/sync.go:163-264 | Every run of a job ends in a final status that tells what happened. Without a plan, which only unreachable backends, a bad item or an I/O error prevent, it has touched nothing. With one, the states that its steps went through are known one by one: a step is refused exactly when its key is reserved and done only when nothing stood in its way. Its counters tally the copies, every copy that no later step went over is still at its target, its bytes those of its source if no target is a source, and no moment shows more bytes copied than announced if moreover every planned size is that of the file that the step's source leads to. Without leave to overwrite no file that was there is lost or changed |
| `SyncJobs.JobFailsIff` | internal/storage/sync.go:206-263 | A job that met no trouble has failed exactly when something stood in the way of a step that it tried; a completed one has copied all of its plan but for what was reserved |
| `SyncJobs.CopiedToFreePlaces` | internal/storage/sync.go:348-354 | Without leave to overwrite, what a job copies goes to places where there was no file when it began |
| `SyncJobs.CompletedJobCovers` | internal/storage/sync.go:163-264 | A completed job has tried every file that its items name; each was copied, or refused exactly if its key was reserved. Where no target is a source and the files are found under their own paths, a copied one is at its target, whole, unless a later step went to the same place |
| `SyncJobs.CompletedJobCountsAll` | internal/storage/sync.go:192-263 | A completed job without refusals, with right sizes and no target that is a source, has counted exactly the bytes that it announced |
| `Jobs.FollowsInHistory` | internal/storage/sync.go:163-264 | Of any two moments of a job, the later one follows from the earlier: counters only grow, totals stay, a final state is frozen |
| `SyncJobs.StatusMovesForward` | internal/storage/sync.go:74-80 | The status passes through queued and running into one final state; bytes only grow; copied, skipped and failed never exceed the total |
| `CopyPlans.BuildCopyPlan` | internal/storage/sync.go:272-305 | For items whose listing ends, a plan has a step for every file that they name or come to, with its target and size, and no other step; without an I/O error there is one exactly when every item has good paths, is found, and can be listed with all it comes to |
| `CopyPlans.PlanItem` | internal/storage/sync.go:274-303 | The same for one item, whose accepted path the backend cleans again |
| `CopyPlans.IncludesBelow` | internal/storage/sync.go:283-295 | Where directories are found under their own paths, what an item names are the files at or below its source |
| `CopyPlans.KeptItemKeepsPlaces` | internal/storage/sync.go:295-302 | Files below a source that is found under its own path go to the same place below the destination |
| `CopyPlans.StrayItem` | internal/storage/sync.go:275-283 | Every source with a name has an item that asks for another path and finds it |
| `CopyPlans.OtherItemIsFlattened` | internal/storage/sync.go:295-302 | Below a source that is found under another path every file goes right into the destination, whatever directory it was in |
| `CopyPlans.FlattenedFilesCollide` | internal/storage/sync.go:295-302 | Two files of one name then have one target |
| `CopyPlans.DedupedPlanCovers` | internal/storage/sync.go:185-191 | The deduplicated plan still copies each named file to each of its targets, once |
| `Schedulers.Scheduler.TriggerRun` | internal/storage/scheduler.go:141-163 | A trigger claims an idle schedule, which then reads as running since that moment, is refused for a running one and fails for an unknown one |
| `Schedulers.Scheduler.BeginRun` | internal/storage/scheduler.go:177-205 | A tick claims an idle schedule, a manual run goes on with a claimed one, and all others return |
| `Schedulers.Scheduler.RecordRun` | internal/storage/scheduler.go:228-240 | Stores the result, and reads as failed with the error's text if there is one, and as completed without a text if there is none |
| `Schedulers.Scheduler.FinishRun` | internal/storage/scheduler.go:207-213 | Gives the schedule back |
| `Schedulers.OneRunPerSchedule` | internal/storage/scheduler.go:141-241 | In every order of events a schedule has one goroutine, spawned or active, exactly when it is marked running, and reads "running" exactly until that one records |
| `Schedulers.StatusTellsLastSync` | internal/storage/scheduler.go:141-241 | In every order of events a schedule that has synced shows the result of its last sync and, unless the next is under way, whether that failed, and with what error |
| `Schedulers.AcceptedRunsHappen` | internal/storage/scheduler.go:141-205 | An accepted trigger always goes on to sync; triggers and ticks are turned away exactly while a run is around |
| `ShareTree.MkdirAll` | internal/storage/smb.go:685-707 | Fails only when something above the directory is a file or on an I/O error, never as a conflict; success makes what is missing and nothing else |
| `ShareTree.MkdirAllMeans` | internal/storage/smb.go:685-707 | After success every prefix is a directory exactly when the path itself was not a file; all else is unchanged |
| `ShareTree.MkdirAllAcceptsFile` | internal/storage/smb.go:698-704 | An instance of success on a path that is a file |
| `ShareTree.RemoveAll` | internal/storage/smb.go:709-732 | Ends on every tree; success removes exactly the subtree; a directory is asked to go only when it is empty; nothing outside is touched |
| `ShareTree.RemoveTarget` | internal/storage/smb.go:255-285 | The root stays, a missing target is reported, and a directory with contents goes only on request |
| `Backends.KeptIff` | internal/storage/backend.go:43-68 | A normal form is found under its own text exactly when that has no backslash and no white space at its ends |
| `Backends.EnsureDir` | internal/storage/sync.go:411-442 | Looks up each prefix of the cleaned path, cleaned again, and makes what is missing there; without an I/O error it fails exactly when one of these rounds must; nothing is lost, and what is new are directories on the way to where some prefix leads |
| `Backends.StraightIff` | internal/storage/sync.go:411-442 | On every share this makes the directory and no other, unless a file is in the way, exactly when each prefix leads to the directory or above it and one leads to it |
| `Backends.SpacedDirectoryIsNotStraight` | internal/storage/sync.go:427-437 | A path with a directory whose name ends in a space, before its end, is not such a path |
| `Listings.ListFilesRecursive` | internal/storage/incremental.go:142-164 | Required only to end: success lists all files that the calls come to, as they are, and nothing else, and without an I/O error it fails exactly when one of the directories cannot be listed; where directories are found under their own paths these are the files below, each once |
| `Listings.EndsIff` | internal/storage/incremental.go:142-164 | Calls nest no deeper than some bound exactly when no call comes to what a call around it lists |
| `Listings.EndsIffNoReturn` | internal/storage/backend.go:43-68 | For a directory found under its own path, other than the root, that is so exactly when nothing it comes to has a directory in it whose name, without the white space at its end, is all dots, slashes and backslashes |
| `Listings.SomeReturn` | internal/storage/backend.go:43-68 | Blank names are like that, and a backslash, and a dot with a space |
| `Listings.BlankInRootNeverEnds` | internal/storage/local.go:54-84 | A directory with a blank name in the root keeps the listing of the root from ending |
| `Listings.KeptFilesReached` | internal/storage/incremental.go:142-164 | Where every directory below is found under its own path, the calls come to exactly the files below |
| `Listings.KeptAllListable` | internal/storage/incremental.go:142-164 | And then each of them can be listed |
| `Listings.CollectSourceFiles` | internal/storage/incremental.go:124-140 | The same for a source that is kept, which may be a single file |
| `Incremental.LeftAloneIff` | internal/storage/incremental.go:187-204 | A file is left alone exactly when its target is a file of its size that is not known to be older |
| `Incremental.FailedCopyIsLeftIff` | internal/storage/incremental.go:187-204 | What a failed run of the ranged copy has left is left alone by the next mirror run exactly when its last byte was written, or there was none, and it is not stamped earlier than its source |
| `Incremental.HolesAreNotNoticedIff` | internal/storage/incremental.go:197-203 | Some run of the engine's copy fails and leaves a wrong file that the next mirror run leaves alone, exactly when there is a second core, the source is as long as was listed, some byte before its last chunk is not zero, and the failed copy is not stamped earlier than the source |
| `Incremental.TargetInjective` | internal/storage/incremental.go:63-73 | Different files of a source have different targets |
| `Incremental.TargetText` | internal/storage/incremental.go:63-73 | The text computed for a target names, to the destination, the destination's path followed by the file's path below the source |
| `Incremental.SyncFile` | internal/storage/incremental.go:63-113 | One file: compared, left alone exactly if it is current, found in flight exactly if it is not and its key is reserved, or copied with its bytes to its target; without trouble it fails only for a stale file that is free and that something stands in the way of; whatever happens, only the target and directories above it are affected |
| `Incremental.SyncFiles` | internal/storage/incremental.go:57-115 | The loop: counters and destination are those of the events so far, each as for one file, copies carry what their sources hold by then, and an error leaves at most one target half done; without trouble it stops only at a file that cannot be copied, and a context cancelled before stops it at once |
| `Incremental.SyncIncremental` | internal/storage/incremental.go:25-116 | A successful run, between two shares or within one, whatever the two paths, has dealt with every file below the source; scanned is copied plus skipped, and bytes the summed sizes of the copied. A bad path is refused; without trouble a run fails else only for a source that is missing or a file that cannot be copied, and a failed run has left at most one target half done |
| `Incremental.MirrorIsFaithful` | internal/storage/incremental.go:57-115 | After a complete run each file not found in flight has an unchanged current target, or one that holds what was copied, which is its content unless another copy went over it first; it needs no copy except when its copy has another size or was stamped too early |
| `Incremental.WhatIsCopied` | internal/storage/incremental.go:63-113 | A complete run has left exactly the files that were current at its start, found in flight exactly those that were stale and reserved, and copied exactly the stale ones that were not |
| `Incremental.NothingLeftOut` | internal/storage/incremental.go:63-113 | With nothing reserved every file is current or copied, and every target is a file |
| `Incremental.ListingOrderDecides` | internal/storage/incremental.go:57-115 | Within one share, of two files the second of which is the first one's target, the second one's target gets what was copied over it or what it held, by the order of the listing |
| `Incremental.MirrorLeavesTheRest` | internal/storage/incremental.go:57-115 | Every path that is no target keeps its file, and what is new there is a directory |
| `Incremental.NothingCopiedIff` | internal/storage/incremental.go:57-115 | A complete run finds every file current exactly when no file of the source needs a copy, and then it changes nothing |
| `Incremental.SecondRunCopiesNothing` | internal/storage/incremental.go:57-115 | If nothing was in flight, copies are stamped no earlier than their sources and the source on its other share is still what it was, the next run copies nothing, skips everything and changes nothing |
| `OneShareMirrors.SecondRunWithin` | internal/storage/incremental.go:57-115 | The same within one share, if no file of the source is mirrored to a place at or below the source |
| `OneShareMirrors.SettledIffCopiesAre` | internal/storage/incremental.go:57-115 | After any such run the next one has nothing to do exactly when none of the copies put into the source needs one in turn |
| `OneShareMirrors.ConvergesIff` | internal/config/config.go:365-367 | Of the rules for two different paths of one share, which the configuration accepts, those converge on every share for which neither path lies below the other, and no others |
| `OneShareMirrors.NestedLeavesWork` | internal/config/config.go:365-367 | Where one path lies below the other, in either direction, there is a share that the mirror takes on which a smooth run leaves work for the next one |
| `OneShareMirrors.SecondRunCopiesTheCopies` | internal/config/config.go:365-367 | With the destination below the source, the first run's copies are files of the source for the second, which finds each of them missing at its own target |
| `OneShareMirrors.NestedNeverSettles` | internal/config/config.go:365-367 | Such a mirror has something to copy in every state in which there is a file below its source |
| `Incremental.SettledIff` | internal/storage/incremental.go:187-204 | After a run, a file needs no copy exactly when it was current, or its copy has the size that was listed and was stamped late enough |
| `Incremental.CarriedAsListed` | internal/storage/incremental.go:88-113 | A copy carries its file as it was listed, if that lies on another share or no copy of the run went over it |
| `Incremental.CopiedHolds` | internal/storage/incremental.go:88-113 | A copied target keeps what was copied to the end of the run |
| `Incremental.ReadsItselfIff` | internal/storage/backend.go:43-68 | A copy reads the file it is asked for, on every share that has it, exactly when a backend finds that file under its own path |
| `Incremental.SpacedFileIsMistaken` | internal/storage/local.go:147-153 | For a file whose name ends in a space the file without it is read |
| `SmbSessions.SmbBackend.EnsureSession` | internal/storage/smb.go:110-123 | A kept session is reused, a new one is dialed exactly when there is none, once, and is the result if the server let it in; a closed backend never dials |
| `SmbSessions.SmbBackend.InvalidateIdle` | internal/storage/smb.go:132-143 | Closes the session when no stream is open, and never otherwise |
| `SmbSessions.SmbBackend.WithShare` | internal/storage/smb.go:171-195 | An operation begins on the session that was kept, or else on one dialed for it. It runs again exactly when the first run lost the connection and another dial succeeded, on the session dialed after the first was closed; the result is that of the last run, and a lost connection leaves no session. Without a session it does not run at all |
| `SmbSessions.SmbBackend.OpenReader` | internal/storage/smb.go:309-352 | The server is asked to open the file, for its state and for its kind, in this order up to the first failure, which is the result and drops the session if it is a lost connection; success adds one open stream and one lease, failure neither |
| `SmbSessions.SmbBackend.Create` | internal/storage/smb.go:354-390 | The same for making the directories above a file, if it has any, and the file |
| `SmbSessions.SmbBackend.Close` | internal/storage/smb.go:422-428 | Closes the session and the backend |
| `SmbSessions.Stream.Transfer` | internal/storage/smb.go:554-574 | A closed or cancelled stream asks nothing of the server; any other reports what the server answers. A lost connection drops the session; a failed write is remembered |
| `SmbSessions.Stream.Close` | internal/storage/smb.go:576-682 | Closes the file and gives the lease back the first time, and does nothing after that; the file of a writer that failed, also at closing, or was cancelled is removed through the session that is kept, and no other file is; the result is that of closing, or the cancellation of a writer |
| `SmbSessions.Serve` | internal/storage/smb.go:110-195 | Over every run the leases are the number of streams handed out and not closed, only the kept session is live, and a closed backend stays without one |
| `SmbSessions.CountsOpenOnes` | internal/storage/smb.go:539-543 | The set of open handles has as many members as there are streams not closed |
| `Paths.CleanRelativePath` | internal/storage/backend.go:43-68 | Accepts exactly the paths without ".." that are blank or have a segment, and returns their segments |
| `Paths.AcceptedIsNormal` | internal/storage/backend.go:43-68 | An accepted path is empty or consists of names other than "", "." and ".." |
| `Paths.AcceptedIff` | internal/storage/backend.go:43-68 | A path is accepted exactly when it is blank or ".", or has no ".." and some segment other than "" and "." |
| `Paths.RootSpellings` | internal/storage/backend.go:54-66 | "/" and "./" are rejected, "" and "." accepted |
| `Paths.FixpointIff` | internal/storage/backend.go:43-68 | A normal form without backslash is accepted unchanged exactly when it has no white space at its ends |
| `Paths.CleaningIsIdempotent` | internal/storage/backend.go:43-68 | Cleaning an accepted path again changes nothing, exactly under the same condition |
| `Paths.CleanSyncPath` | internal/config/config.go:379-401 | The two loops compute the segments of the path, or refuse ".." |
| `Paths.SyncPathIsFixpoint` | internal/config/config.go:379-401 | What the configuration accepts means the same to the storage service exactly when it has no white space at its ends |
| `Paths.EveryFormComesUp` | internal/storage/backend.go:43-68 | Every normal form without a backslash is what some input is accepted as, by the storage service and by the configuration, so forms that the next cleaning changes do come up |
| `Paths.ResolveLocalIs` | internal/storage/local.go:261-281 | Resolving succeeds exactly on accepted paths and appends their segments to the root; the root check never fires |
| `Paths.ResolveLocalInjective` | internal/storage/local.go:261-281 | Two paths reach the same file exactly when they clean to the same path |
| `Paths.StripInvertsKey` | internal/storage/s3.go:62-74 | Every accepted path has a key, and stripping the bucket prefix from it gives the cleaned path back |
| `Paths.RelativeUnderIs` | internal/storage/incremental.go:166-180 | The path of a file below a root is the rest of its segments |
| `Paths.TargetIs` | internal/storage/incremental.go:63-73 | The target of a file is the destination's segments and the file's segments below the source |
| `Paths.TaskDirRoundTrip` | internal/bt/destination.go:18-38 | An accepted download directory is the root or below it, its relative form is normal, and resolving that gives the directory back exactly when it has no white space at its ends; the daemon's form is the same then |
| `Paths.RelativeTaskDirIs` | internal/bt/destination.go:54-70 | The relative form of a directory below the root is its segments below the root |
| `Paths.TaskDirAcceptedIff` | internal/bt/destination.go:18-38 | A subdirectory is accepted exactly when it is blank or ".", or is relative and leads to the root or, for a root other than "/", below it |
| `Paths.SlashRootRejects` | internal/bt/destination.go:33-36 | With the root "/", in any spelling, a relative subdirectory is accepted exactly when it leads to the root itself |
| `Paths.EveryTaskDirComesUp` | internal/bt/destination.go:18-70 | Every directory below the root is accepted in some spelling; its relative form resolves to it exactly when that has no white space at its ends |
| `Cloudflare.Provider.ListRecords` | internal/cloudflare/client.go:124-149 | For a zone that stands still the pages put together are its records, in order and once each, whether or not answers tell the number of pages; the loop ends, and fails only with a page |
| `Dns.NormalizeIsIdempotent` | internal/dns/service.go:303-305 | A zone name normalized twice is as normalized once, so all operations use one cache entry |
| `Dns.Service.EnsureZone` | internal/dns/service.go:249-283 | A zone is found exactly when it is known already or configured and the provider's, unless the provider fails, under the provider's id, and is known from then on |
| `Dns.Service.RefreshZone` | internal/dns/service.go:126-148 | Success makes the cache the provider's list; failure changes nothing, and is a missing token, an unknown zone or the provider's |
| `Dns.Service.ListRecords` | internal/dns/service.go:113-123 | Returns the cached list, or a fetched one; complete if the zone was ever listed or not cached at all |
| `Dns.Service.CreateRecord` | internal/dns/service.go:151-172 | Past the checks exactly the record that was given is asked of the provider, and nothing if a check refuses; the provider's new record is appended to the cache. A failure, which is the refusal due or the provider's, changes neither side |
| `Dns.Service.UpdateRecord` | internal/dns/service.go:175-209 | The same for a change of exactly the record that was named: the provider's record takes the place of the cached one with its id, or is appended; it also fails where the provider has no such record |
| `Dns.Service.DeleteRecord` | internal/dns/service.go:212-232 | The same for a deletion: the record goes from the provider's list and from the cache |
| `Dns.Serve` | internal/dns/service.go:74-232 | Over every sequential run, reloads included, a zone that was listed since the last reload has a cache equal to the provider's records, and every other cached zone a part of them, ids unique |
| `Dns.Service.Replace` | internal/dns/service.go:74-81 | A reload forgets all zones and records |
| `Dns.CreateKeeps` | internal/dns/service.go:167-170 | Adding a record on both sides keeps a cache a part, and a complete one complete |
| `Dns.UpdateKeeps` | internal/dns/service.go:193-206 | Replacing a record on both sides keeps a cache a part, and a complete one complete |
| `Dns.DeleteKeeps` | internal/dns/service.go:221-229 | Removing a record on both sides keeps a cache a part, and a complete one complete |
| `Dns.ReplaceFirst` | internal/dns/service.go:195-205 | The loop replaces the first record of the id in place, or appends |
| `Dns.Filter` | internal/dns/service.go:221-229 | The loop drops the records of the id and keeps the order of the others |
| `Dns.FirstWriteIsPartial` | internal/dns/service.go:168-170 | After a first creation in an unlisted zone the cache is all of the zone exactly when the zone was empty |
| `Dns.FirstUpdateIsPartial` | internal/dns/service.go:193-206 | After a first update, exactly when the zone has that record alone |
| `Dns.FirstDeleteIsPartial` | internal/dns/service.go:221-229 | After a first deletion, exactly when nothing else is left in the zone |
| `Logins.PruneInPlace` | internal/auth/service.go:211-217 | The kept times are moved to the front of the same array, in order |
| `Logins.RecentTwice` | internal/auth/service.go:206-219 | Pruning after an earlier pruning gives what pruning the full history would |
| `Logins.Service.IsRateLimited` | internal/auth/service.go:206-219 | The verdict is that of the pruned list, and of the full history unless a login with a later reading has looked before |
| `Logins.Service.RecordFailedAttempt` | internal/auth/service.go:221-225 | Adds one failure to one address, however many there are; the pruned list still agrees with the history |
| `Logins.Service.Login` | internal/auth/service.go:76-115 | Exactly the attempts that reach the password check and fail it are recorded, under the address's first 45 characters; a limited address reaches nothing |
| `Logins.CountedTogetherIff` | internal/auth/service.go:271-277 | Two addresses share a count exactly when they are equal, or both that long with the same beginning |
| `Logins.EveryWindowIsLimited` | internal/auth/service.go:84-109 | In every interleaving of records and of checks that come in the order of their clock readings, with at most `k` logins of an address in between at a time, every half-open window of five minutes, ending anywhere, holds at most 9 + k of its failures |
| `Logins.Overlap` | internal/auth/service.go:84-109 | The steps of these interleavings are the service's sections: any sequence of them leaves the history that the machine has |
| `Logins.Serve` | internal/auth/service.go:84-109 | Over every sequence of logins one after the other, under a clock that does not go back, every window of every address holds at most ten |
| `Logins.BoundIsReached` | internal/auth/service.go:84-109 | The bound is met for every `k`; two logins at a time can put eleven failures in a window |
| `LoginOverlaps.EveryWindowIsLimitedToo` | internal/auth/service.go:84-109 | With at most `k` logins of an address under way from reading the clock to their end, in any order of checks, every window holds at most 8 + 2k failures, and the last one 9 + k |
| `LoginOverlaps.LimitIsReached` | internal/auth/service.go:84-109 | That bound is met for every `k`: a late check empties the list for those with earlier readings, and two logins at a time can put twelve failures in a window |
| `LoginOverlaps.OverlapAnyhow` | internal/auth/service.go:84-109 | The moves of these interleavings are what the service does: any sequence of them leaves its list and its history |
| `FileSelections.MapRemoteFiles` | internal/bt/transmission.go:363-383 | Each file shows its state, or wanted with normal priority where the daemon sent none |
| `FileSelections.SetFiles` | internal/bt/transmission.go:702-754 | The request has the picked indexes of each kind, unmentioned files unwanted, empty lists left out; a bad selection changes nothing, and unless a call fails only a bad one is refused |
| `FileSelections.RequestSplitsFiles` | internal/bt/transmission.go:710-752 | Each file is listed as wanted or unwanted, and a wanted one as high or normal; it is listed twice exactly when it was selected both ways |
| `FileSelections.SelectionTakesEffect` | internal/bt/transmission.go:702-754 | A file whose selections agree then shows them, in whatever order the daemon applies the lists |
| `FileSelections.UpdateFiles` | internal/bt/control.go:49-91 | After success a file that updates name shows what the last of them says, and any other what it showed before; unless a call fails exactly the valid updates succeed, and an invalid one changes nothing |
| `FileSelections.ApplyUpdates` | internal/bt/control.go:65-76 | The loop accepts exactly the valid updates, and leaves each file as its last one says |
| `FileSelections.EmptyListMeansAll` | internal/bt/transmission.go:741-752 | Sending an empty list instead of leaving it out could select every file when none is wanted |
| `FileSelections.UnnamedKeepsStateIff` | internal/bt/transmission.go:461-469 | A file that no update names keeps its state at the daemon exactly when it is unwanted or not of low priority |
| `FileTrees.BuildFileTree` | web/src/components/bt/fileTree.ts:11-43 | The tree holds exactly the files with a name, each at the place its path gives, siblings unique, paths in step, sorted at every level; the collected indexes are theirs |
| `FileTrees.PartsConcat` | web/src/components/bt/fileTree.ts:14 | A path is taken apart at both kinds of slash, however many there are, and a name without any is its only part |
| `FileTrees.InsertAddsEntry` | web/src/components/bt/fileTree.ts:13-39 | Inserting a file adds one entry at its own place and moves none |
| `FileTrees.InsertKeepsForm` | web/src/components/bt/fileTree.ts:20-38 | Inserting makes no second directory of a name, and gives a directory its parent's path and its name |
| `FileTrees.BuildKeepsFiles` | web/src/components/bt/fileTree.ts:11-40 | The built tree has one entry for each file with a name, and is well formed |
| `FileTrees.SortKeepsBag` | web/src/components/bt/fileTree.ts:45-53 | Sorting moves no file to another place |
| `FileTrees.SortKeepsForm` | web/src/components/bt/fileTree.ts:45-53 | Sorting keeps directories unique and paths in step |
| `FileTrees.SortSorts` | web/src/components/bt/fileTree.ts:45-53 | After sorting, directories come first and names are in order, at every level |
| `FileTrees.CollectIsIndexes` | web/src/components/bt/fileTree.ts:55-60 | The collected indexes are those of the entries, in order |

## Left out

- HTTP handlers, the router, the command line, the Vue components, host metrics, logging, transfer rates and ratios.
- The wire protocols of SMB, S3, Transmission and Cloudflare, SQLite and password hashing: each appears as a tree of files, a daemon's state, a list of records or an arbitrary answer. A provider call that fails is taken to have had no effect.
- Reloading and stopping the scheduler: both wait for cron while holding the mutex, and a reload forgets which schedules run, so claims are between reloads only.
- S3 listing and recursive deletion, which see a single page; only the key mapping is modelled.
- The seed-ratio watcher, whose two flags are not linked.
- Sessions of logged-in users.
- Refreshes of a DNS zone that race with writes to it, and the field validator: a request carries whether it is valid.
- Roots of download directories that are not POSIX paths.
- The checks of a copy request before its job starts, and the sizes, rates and times that a job also reports.
- Which writers remove the file of a failed copy: FileCopy lets each leave or remove it.
- A share is a tree with the names that file systems have; an object store, whose keys may be anything, is one only as far as that goes.
- Symbolic links, and changes of a share from outside during a mirror run or a copy.
- `joinRelative`, which nothing calls, and the expansion of the configuration other than its paths.
- FileTrees.BuildFileTree: nodes are values, so that the tree grows and is sorted in place by pushing into shared children is not captured; the browser's collation is any ranking of names.
- Incremental.SyncIncremental: the source, the directories below it and its files are found under their own paths, and targets land where they say; what goes wrong otherwise is shown one file, one directory and one listing at a time.
- Listings.EndsIffNoReturn: for the root, whose entries may begin with white space, the condition is left as it stands in Listings.EndsIff.
- Listings.ListFilesRecursive: nothing is said of a listing that does not end, but when that is.
- SyncJobs.RunJob: within one share, what a copy carries over is tied to the sources as they were only if no target is a source.
- Backends.EnsureDir: errors are told apart by what they are, where the code goes by the words "exist" and "not found" in their texts too, so that an I/O error with such a text passes for a conflict or for a missing directory.
- FileCopy.CopyOneFile: paths are given in normal form, as all its callers have them.
- Dns.Service.CreateRecord: a record has its type, name, content and lifetime; the other fields, which are passed on in the same way, are left out.
- SmbSessions.SmbBackend.Create: making the directories is one question to the server; ShareTree.MkdirAll has its steps.
- Dns.NormalizeIsIdempotent: only ASCII letters are lowered, where the code lowers all of Unicode.
- Incremental.MirrorIsFaithful: nothing is claimed for a file that was in flight elsewhere.
- CopyIO.StreamReader.Read: how often in a row a read may return nothing without an error is bounded by a number that the reader carries.
- Dns.Service.ListRecords: completeness is not claimed for a zone that was written to before it was first listed.
