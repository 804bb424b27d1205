# k-cloud backend: a verified model of its stateful core

This Dafny project models the parts of the k-cloud backend that keep state across requests, and proves what the
rest of the system relies on:

- **Resumable uploads** (`TempStorage`, `UploadMachine`, `UploadSafety`, `UploadRuns`, `UploadCoverage`,
  `UploadTheorems`, `UploadEffects`, `Quota`, `QuotaMeasure`). The chunk store, the interval loop that writes chunks
  to disk, and the initialise / write / delete endpoints are a machine of atomic steps: every stretch of code between
  two `await`s is one step. Disk writes may fail after writing part of a chunk, finalising may fail, and an upload may be deleted at
  any time, also while one of its chunks is being written (where the process goes on after that; see below). The
  theorems hold for every run of the machine, under three stated hypotheses (`UploadSafety.Orderly`): the client sends
  non-empty chunks inside the declared size that do not overlap, a path is not initialised again while a loop of an
  earlier upload to it is suspended, and no folder is removed in which an upload in progress has written something.
  `UploadRuns.DeleteInvIff` and the last sections of `UploadTheorems` show what goes wrong without each. The quota is
  accounted for in all these runs: `Quota` says by how much it can be exceeded, exactly when it holds, and which
  discipline keeps it; `QuotaMeasure` says how good the measurements are.
- **Directory tree, index and search** (`DirTree`, `TreeIndex`, `IndexSearch`, `SearchTheorems`, `SpaceFolds`). Tree
  generation keeps its two-levels-per-call recursion and what it does with entries that cannot be read. The search
  keeps the splice inside `forEach`, the binary search and the two scans.
- **Sessions** (`Sessions`, `SessionTheorems`, `SessionEffects`). The cache over the joined tables, and the sliding
  expiry.
- **Share tokens** (`Tokens`, `TokenTheorems`, `TokenEffects`). Three caches over one table, and the path rewrite of a
  move.
- **Activity charts and the recent list** (`Charts`, `RecentTokens`), and the **tree refresh queue**
  (`TreeSchedule`).

Code that works in place is a class or a method with loops, each tied by its postcondition to a function on values;
the theorems are lemmas about those functions over whole runs, and the `Effects` modules say what each operation gives
without naming the functions that carry it out. `Basics`, `Seqs` and `Ordering` hold what several parts
share.

What the code does and its comments or names do not say:

- `filesAtSameTime` admits one more file than it says: the comparison is `<=`. `TickFillsTheSlots` gives the exact
  number of writers after a tick.
- A search can lose matches: an entry that slides into the place of a removed one is skipped, and the binary search
  may not find it again. `SearchCanLoseAMatch` is an instance, `SearchCompleteIff` the exact condition.
- A custom chart whose start lies later in its hour or day than its end omits exactly one unit.
- A file without a dot in its name gets its extension cut from its whole path at every second level of the tree.
- A folder at the levels in between is left out of the tree, and so out of the measured space, when one of its direct
  entries cannot be read; indexing that tree then fails on the `null` in its place. `MeasuredSpaceIsDirectorySize`
  says how many bytes that costs, `UnreadableEntryLosesItsFolder` is an instance.
- A path that is initialised again while a chunk of a deleted upload is being written starts with that chunk counted
  as its own, and can be found complete with nothing received; while an upload is being finalised, the new one is
  removed with it.
- A finalisation that fails raises the flag again and can exceed the limit on writers by one more.
- Between the end of an upload and the measurement that follows, its bytes are neither used nor reserved; nor are
  those of a chunk that lands after its upload was deleted. Space admitted then is promised twice, unless the measured
  use happens to cover them (`AdmissionBeforeMeasuringIff`, `StrayLandingIff`).
- When a write ends whose upload was deleted, the error handler itself throws, in a promise that nobody awaits. That
  ends a Node.js process by default; the model goes on with the loop gone.
- Two requests that initialise one path at the same time can list it twice, and its declared size then counts twice.
- A chunk that is sent twice counts twice: an upload can be found complete with half of its file missing.
- A custom chart under an hour is right only if it starts with its last hour.
- Moving a folder to a path that properly extends its own rewrites the token of the folder itself twice, and every
  move also rewrites the tokens of other users and of siblings whose path begins with the same text.
- A cached absence of a share token outlives the creation of that token, and a cached page keeps showing tokens that
  have expired since it was fetched.
- Adding a share token with a taken id, or updating one that is gone, repeats the query for ever.
- The list of recent tokens looks at the 500 oldest visits: with more, later visits are not seen.

## Model

| member | source | states |
|---|---|---|
| `TempStorage.WriteAt` | src/temp-storage/temp-storage.service.ts:104-132 | a positioned write puts the bytes at their offsets, extends the file no further than their end, and leaves every other byte alone |
| `TempStorage.TempStorageService.CalculateWritting` | src/temp-storage/temp-storage.service.ts:28-36 | the counter becomes the number of listed uploads with their flag up |
| `TempStorage.TempStorageService.AllowWriteMoreFiles` | src/temp-storage/temp-storage.service.ts:42-45 | another file may be written iff the number of active writers is at most the setting |
| `TempStorage.TempStorageService.CreateFileTemp` | src/temp-storage/temp-storage.service.ts:86-102 | a new upload is listed last, with empty queue and zero counters |
| `TempStorage.TempStorageService.AllocateBlob` | src/temp-storage/temp-storage.service.ts:187-190 | the chunk enters at the queue's front and its length is added to `received`; without an upload it fails and changes nothing |
| `TempStorage.TempStorageService.DeallocateBlob` | src/temp-storage/temp-storage.service.ts:197-204 | the oldest queued chunk is taken; without an upload or with an empty queue there is none and nothing changes |
| `TempStorage.TempStorageService.SetWritting` | src/temp-storage/temp-storage.service.ts:219-224 | sets the flag of an existing upload only |
| `TempStorage.TempStorageService.UpdateBytesWriten` | src/temp-storage/temp-storage.service.ts:73-77 | the byte range is appended and `saved` becomes the sum over all ranges |
| `TempStorage.TempStorageService.IsCompleted` | src/temp-storage/temp-storage.service.ts:138-146 | complete iff `saved` has reached `size`; a missing upload counts as complete |
| `TempStorage.TempStorageService.DelFile` | src/temp-storage/temp-storage.service.ts:152-155 | the upload leaves both collections |
| `TempStorage.TempStorageService.GetSpaceToUse` | src/temp-storage/temp-storage.service.ts:236-246 | the sum of the declared sizes of all listed uploads |
| `UploadMachine.UploadPipeline.InitializeFile` | src/files/files.controller.ts:219-240 | the guard's and the endpoint's refusals in order, and otherwise the new upload with its reserved file |
| `UploadMachine.UploadPipeline.ReciveBlob` | src/files/files.controller.ts:252-270 | a chunk is queued iff its upload exists |
| `UploadMachine.UploadPipeline.WriteBlobs` | src/files/files.service.ts:77-91 | one interval tick: the prefix of every directory's callback up to its first `await`, in listing order |
| `UploadMachine.UploadPipeline.ResumeAfterWrite` | src/files/files.service.ts:90-112 | after a write: flag down, range recorded, then completion or the next turn of the inner loop |
| `UploadMachine.UploadPipeline.ResumeAfterWriteError` | src/files/files.service.ts:113-116 | after a failed write: the chunk is queued again (and counted again) and the loop goes on |
| `UploadMachine.UploadPipeline.ResumeAfterFileInfo` | src/files/files.service.ts:98-108 | the completed upload leaves the store and the loop ends; the measurement it starts arrives as a step of its own |
| `UploadMachine.UploadPipeline.ResumeAfterFileInfoError` | src/files/files.service.ts:98-116 | when finalising fails, the chunk that completed the upload is queued and written once more |
| `UploadMachine.UploadPipeline.DeleteFile` | src/files/files.service.ts:372-398 | the upload and the file, or all files of the folder, are removed; a missing one is reported only after the upload is gone |
| `UploadMachine.UploadPipeline.UpdateUsedSpace` | src/admin/admin.service.ts:149-157 | the configured used space becomes the measured one |
| `UploadCoverage.CoverSize` | src/temp-storage/temp-storage.service.ts:73-77 | the lengths of disjoint chunks add up to the number of offsets they touch, at most the file size |
| `UploadCoverage.CompleteIffCovered` | src/temp-storage/temp-storage.service.ts:138-146 | disjoint chunks inside the file add up to its size iff they touch every offset |
| `UploadCoverage.CoveringNeedsBytes` | src/temp-storage/temp-storage.service.ts:138-146 | any chunks that touch every offset of a file have at least its size in bytes, overlapping or not |
| `UploadCoverage.WriteKeeps` | src/temp-storage/temp-storage.service.ts:104-132 | a write, even a partial one, leaves every chunk disjoint from it, and the chunk itself, in place |
| `UploadSafety.CompletedAdmitsNoChunk` | src/files/files.service.ts:92-98 | while a completed upload is being finalised no further valid chunk can arrive, so no second loop starts |
| `UploadSafety.LandOk` | src/files/files.service.ts:89-93 | a successful write keeps an upload's accounting, order, phase and disk content consistent |
| `UploadSafety.RequeueOk` | src/files/files.service.ts:113-116 | so does a failed write that left part of its chunk on disk |
| `UploadSafety.RedoOk` | src/files/files.service.ts:98-116 | so does a failed finalisation, after which a chunk that is on disk already is queued again |
| `UploadRuns.StepInv` | src/files/files.service.ts:77-120 | every step of every kind, also of a loop whose upload was deleted, keeps the invariant of all uploads |
| `UploadRuns.DeleteInvIff` | src/files/files.service.ts:372-398 | removing a folder keeps that invariant iff no upload in progress has written anything inside it |
| `UploadTheorems.CompleteIffAllWritten` | src/temp-storage/temp-storage.service.ts:138-146 | in every run, `saved` has reached `size` iff every byte of the file has been written |
| `UploadTheorems.CompletedUploadIsClientFile` | src/files/files.service.ts:89-106 | in every run, with deletions, failed writes and failed finalisations, when the loop finds an upload complete the disk holds exactly the client's file, and still does after the upload has left the store |
| `UploadTheorems.ReceivedIsConserved` | src/temp-storage/temp-storage.service.ts:73-77 | in every run, `received` = `saved` + in flight + queued + bytes counted again by failed writes; `saved` is the sum over `bytesWritten`, and all of it comes from arrivals and re-queued chunks |
| `UploadTheorems.ChunksAreKeptInOrder` | src/files/files.service.ts:82-116 | in every run no chunk is lost, duplicated or invented, but for those queued again by a failed finalisation; without failed writes chunks are written in order of arrival |
| `UploadTheorems.OneLoopPerFile` | src/files/files.service.ts:77-91 | in every run each path has at most one loop, and a flag is up iff a write of its file is in flight |
| `UploadTheorems.BoundedConcurrentWrites` | src/files/files.service.ts:77-91 | in every run at most `filesAtSameTime + 1` flags are up, as long as each failed finalisation finds one of these slots free |
| `UploadTheorems.FailedFinaliseTakesASlot` | src/files/files.service.ts:113-116 | a failed finalisation adds one writer without asking for a slot, so that condition is exact |
| `UploadTheorems.TickFillsTheSlots` | src/temp-storage/temp-storage.service.ts:42-45 | a tick leaves exactly the smaller of `filesAtSameTime + 1` and the writers plus the ready uploads (or more were active already) |
| `UploadEffects.TickCount` | src/files/files.service.ts:77-91 | a tick of any consistent store leaves that many writers over the whole listing |
| `UploadEffects.TickServesInOrder` | src/files/files.service.ts:77-91 | a tick starts exactly the first uploads of the listing that wait for a writer, as many as there are slots, each on its oldest chunk; every other upload and loop is as it was |
| `UploadEffects.InitVerdicts` | src/files/files.controller.ts:215-236 | which refusal an initialisation meets first: no space, an upload there already, a file or folder there without `overwrite`, none there with it |
| `UploadEffects.InitEffect` | src/files/files.controller.ts:234-236 | a refusal changes nothing; otherwise the new upload is listed last with zero counters, what was at the path is gone, zeros stand there iff space is reserved, no other file is touched and without `overwrite` none is lost |
| `UploadEffects.StepTouchesOne` | src/files/files.service.ts:77-118 | a step about one path leaves all other uploads, the order of the listing, other loops and other files alone |
| `UploadEffects.WriteDoneOnDisk` | src/temp-storage/temp-storage.service.ts:104-132 | a successful write puts the chunk in its place, with or without an upload, keeps all other bytes and fills a gap with zeros |
| `UploadEffects.WriteFailEffect` | src/files/files.service.ts:113-116 | a failed write leaves at most a first part of its chunk in place; the chunk is queued last, counted again, and the loop goes on with the oldest one |
| `UploadEffects.FinaliseFailEffect` | src/files/files.service.ts:98-116 | a failed finalisation queues its chunk last, counts it again, and the loop goes on |
| `UploadEffects.LoopsEnd` | src/files/files.service.ts:82-118 | a loop whose upload is gone ends when it is resumed, and so does one that has finalised |
| `UploadEffects.RangesAreChunksWritten` | src/temp-storage/temp-storage.service.ts:73-77 | in every run the ranges recorded of an upload are exactly the places of the chunks written, in their order |
| `UploadEffects.DeleteEffect` | src/files/files.service.ts:372-398 | a deletion removes the upload from its place in the listing and every file at the path or inside it, and nothing else |
| `UploadTheorems.RunningLoopWorksOffItsQueue` | src/files/files.service.ts:82-118 | a writing loop needs one successful write per outstanding chunk, and then has found the upload complete iff all bytes had arrived |
| `UploadTheorems.ReinitialisedDuringWrite` | src/files/files.service.ts:88-98 | from any state, a path initialised again during a write of an earlier upload counts that chunk with nothing received, and is found complete iff it is declared no longer than the chunk |
| `UploadTheorems.ReinitialisedDuringFinalisation` | src/files/files.service.ts:98-108 | from any state, a path initialised again during the finalisation of an earlier upload loses the new upload |
| `UploadTheorems.FolderRemovedAroundUpload` | src/files/files.service.ts:372-398 | removing a folder leaves the record of every upload inside it as it was, but not its file |
| `UploadTheorems.FolderRemovedDuringWrite` | src/files/files.service.ts:372-398 | during a write the record goes on as without the removal, its completion included, but of the file only the chunk being written is left |
| `UploadTheorems.RepeatedChunkCompletes` | src/temp-storage/temp-storage.service.ts:73-77 | a run in which one chunk is sent twice finds an upload of twice its length complete with half of it on disk |
| `UploadTheorems.LateCreationConsistentIff` | src/files/files.controller.ts:227-236 | whatever happened between the checks of an initialisation and its creation, listing and record stay in step iff the path has not been listed meanwhile |
| `UploadTheorems.TwoRequestsForOnePath` | src/files/files.controller.ts:227-236 | two requests for one path that both passed the checks list it twice, and the second declared size counts twice until a deletion removes both |
| `Quota.StepAccounts` | src/files/guards/space.guard.ts:15-26 | no step but an admission and a write whose upload is gone raises finished bytes + declared sizes, and these two by exactly what they promise or land |
| `Quota.DebtBoundsQuota` | src/files/guards/space.guard.ts:15-26 | in every run, the debt it accumulates (bytes finished and not measured at an admission, bytes landed without an upload) bounds by how much finished files + declared sizes, and the bytes on disk, exceed the dedicated space, and by how much the measured use is too low |
| `Quota.QuotaHoldsIff` | src/files/guards/space.guard.ts:15-26 | a run keeps within the dedicated space throughout iff it starts so, each admission is one that the true size of the finished files would have allowed, and each write whose upload is gone finds room |
| `Quota.QuotaIsNeverExceeded` | src/files/guards/space.guard.ts:15-26 | in every run that admits only after measuring, measures all finished files and deletes no upload during a write, finished files + declared sizes, and the bytes on disk, do not exceed the dedicated space |
| `Quota.AdmissionSafeIff` | src/files/guards/space.guard.ts:15-26 | from any state, whatever size the guard admits for a path keeps within the total iff nothing is admitted at all or the measured use covers what remains finished |
| `Quota.AdmissionAfterMeasuringIff` | src/admin/admin.service.ts:149-157 | after any measurement the guard is safe in this sense iff it counted what remains finished, or the space is full |
| `Quota.AdmissionBeforeMeasuringIff` | src/files/files.service.ts:106-108 | between a finished upload and its measurement the guard is safe for a new path iff the old measurement covers that upload's file too, or the space is full |
| `Quota.StrayLandingIff` | src/files/files.service.ts:88-90 | when the space of a deleted upload is given to a new path before its last chunk lands, the total is kept for every admitted size iff the measured use also covers what the chunk adds to the disk, or the space is full |
| `Quota.DeletionLeavesStray` | src/files/files.service.ts:372-379 | a deletion during a write releases the declared size and leaves such a chunk, which will add all bytes up to its end |
| `Quota.TwoAdmissionsIff` | src/files/files.controller.ts:215-236 | two requests that pass the guard before either creates its upload keep within the total for all sizes iff the measured use covers the finished files and the room left once more, or the space is full |
| `QuotaMeasure.MeasurementCoversFinishedFiles` | src/files/files.service.ts:541-561 | a measurement through the tree of a directory that shows the finished files leaves unmeasured at most the lost bytes; with none lost it is one the quota can rely on |
| `Quota.PartialFilesFit` | src/temp-storage/temp-storage.service.ts:236-246 | partly written files take no more than the declared sizes that are reserved for them |
| `DirTree.GenerateTreeMirrors` | src/files/files.service.ts:439-498 | without its nulls the tree is the plain one-level mirror of what could be read: files and folders, or the folder skeleton |
| `DirTree.EvenLevelMirrors` | src/files/files.service.ts:473-478 | the recursive level rejects as a whole iff one of the entries cannot be read |
| `DirTree.GenerateTreeNulls` | src/files/files.service.ts:489-493 | nulls stand at odd levels only; with files shown there is none iff everything could be read |
| `DirTree.GenerateTreeIsMirrorIff` | src/files/files.service.ts:445-456 | the tree equals the mirror including extensions iff every file at an even level has a dot in its name |
| `DirTree.ExtensionByPath` | src/files/files.service.ts:450 | cutting the extension from a path agrees with cutting it from the name iff the name has a dot or there is no folder |
| `TreeIndex.IndexBuilder.OnForEach` | src/treefiles/treeFiles.service.ts:73-83 | one callback appends the node's preorder; it fails iff it meets a null |
| `TreeIndex.IndexBuilder.CreateIndex` | src/treefiles/treeFiles.service.ts:71-89 | indexing fails iff the tree has a null, and otherwise sorts the preorder walk |
| `TreeIndex.IndexIsSortedPermutation` | src/treefiles/treeFiles.service.ts:84-88 | the index is a permutation of the walk, one entry per node below the root, sorted by a name without upper-case letters that equals the node's up to case |
| `TreeIndex.WalkIsPreorder` | src/treefiles/treeFiles.service.ts:73-83 | the walk goes through siblings in order, enters a node with its lower-cased name, name, path, size and kind, and then what is in it |
| `TreeIndex.IndexPathsResolve` | src/treefiles/treeFiles.service.ts:73-86 | with distinct sibling names all paths differ and each leads to a node with the entry's name, size and kind |
| `TreeIndex.EveryNodeIsIndexed` | src/treefiles/treeFiles.service.ts:73-86 | names lead from the root to a node iff the index has an entry under the path they form |
| `TreeIndex.SearchOnIndexIsComplete` | src/treefiles/treeFiles.service.ts:129-177 | a literal search on a tree's index returns exactly the matching nodes when no two neighbours match or a skipped match begins with the pattern |
| `Ordering.StableSortSorts` | src/utils/utils.service.ts:43-45 | sorting yields a sorted permutation that keeps the order of tied elements |
| `Ordering.SortedTiesDecide` | src/utils/utils.service.ts:43-45 | only one sequence is sorted and keeps the order of tied elements |
| `Ordering.LowerMeaning` | src/treefiles/treeFiles.service.ts:77-80 | lower-casing leaves no upper-case letter and changes nothing but case |
| `Ordering.SameLowerIff` | src/treefiles/treeFiles.service.ts:134-139 | two strings have one lower-cased form iff they differ in the case of letters only |
| `Ordering.StrLeDecides` | src/treefiles/treeFiles.service.ts:168 | the order of strings is decided by the code units at the first difference |
| `Ordering.ContainsIff` | src/treefiles/treeFiles.service.ts:135 | containment is occurrence at some place |
| `IndexSearch.SearchInIndex` | src/treefiles/treeFiles.service.ts:129-177 | the whole search computes the entries taken by the first pass followed by those of the second phase |
| `SearchTheorems.MatchesIgnoresCase` | src/treefiles/treeFiles.service.ts:134-139 | names that differ in case only match the same patterns; a name without upper-case letters is tested as it is |
| `SearchTheorems.SearchForText` | src/treefiles/treeFiles.service.ts:129-177 | searching for a text finds only entries whose name contains it in upper or lower case, and all of them if no two neighbours do |
| `SearchTheorems.TakenPlaces` | src/treefiles/treeFiles.service.ts:134-139 | what the first pass takes comes in the order of the index |
| `SearchTheorems.SecondPhaseOrder` | src/treefiles/treeFiles.service.ts:149-168 | the second phase returns its landing place, then what lies below it from near to far, then what lies above it |
| `IndexSearch.SplicePass` | src/treefiles/treeFiles.service.ts:134-139 | removing while iterating takes a match and skips the entry after it |
| `IndexSearch.ScanDown` | src/treefiles/treeFiles.service.ts:152-158 | the downward scan collects the matches below the landing place, nearest first |
| `IndexSearch.ScanUp` | src/treefiles/treeFiles.service.ts:160-166 | the upward scan collects the matches above it |
| `SearchTheorems.SearchFindsAtLeastHalf` | src/treefiles/treeFiles.service.ts:134-176 | for every index and pattern: results and missed entries are together the matches with multiplicity, at most half are missed, and each missed one directly follows a returned one |
| `SearchTheorems.ProbeLands` | src/treefiles/treeFiles.service.ts:141-174 | on a sorted index the binary search lands whenever an entry in its window begins with the pattern |
| `SearchTheorems.LiteralSearchIsComplete` | src/treefiles/treeFiles.service.ts:129-177 | a literal search is complete if no two neighbours match or a skipped match begins with the pattern |
| `SearchTheorems.SkipsIffNeighboursMatch` | src/treefiles/treeFiles.service.ts:134-139 | the first pass jumps over a match iff two neighbouring entries of the index both match |
| `SearchTheorems.SearchCompleteIff` | src/treefiles/treeFiles.service.ts:129-177 | for every index and pattern, complete iff no two neighbours match or a plain binary search of what the first pass leaves, for the pattern's text, visits a match |
| `SearchTheorems.SearchCanLoseAMatch` | src/treefiles/treeFiles.service.ts:134-139 | searching `p` among `1p, 2p, a, b` loses `2p` |
| `SpaceFolds.UsedSpace.GetUsedSpace` | src/files/files.service.ts:541-561 | the figure is all files plus all folders below the root; nulls add nothing |
| `SpaceFolds.UserSpace.ForEach` | src/files/files.service.ts:568-586 | the user's figure is the sum of the file sizes; a null makes it fail |
| `SpaceFolds.TypeSpace.ForEach` | src/files/files.service.ts:671-778 | the per-type record accumulates every file under its category |
| `SpaceFolds.TypesAddUpToUserTotal` | src/files/files.service.ts:671-782 | each type's figure is the total of that type's files, and together they are the user's total |
| `SpaceFolds.FilesCountUnderTheirType` | src/files/files.service.ts:671-778 | all bytes of a file count under the type its extension is listed for, else under `compressed` if its name has one of five archive marks, else under `other` |
| `SpaceFolds.AllUsersIsSumOfUsers` | src/treefiles/treeFiles.service.ts:113-127 | the figures over all users are the sums of the users' figures |
| `SpaceFolds.MeasuredSpaceIsDirectorySize` | src/files/files.service.ts:541-557 | measuring through the generated tree gives the size of the directory less the bytes of odd-level folders with an unreadable direct entry, and the whole iff no byte is lost so |
| `SpaceFolds.UnreadableEntryLosesItsFolder` | src/files/files.service.ts:473-493 | a folder `docs` with one unreadable file: 7 of 61 readable bytes are measured |
| `Sessions.SessionsService.RetrieveSession` | src/sessions/sessions.service.ts:200-227 | a cached entry is returned as it is; otherwise the row joined with its user is cached and returned |
| `Sessions.SessionsService.ValidateSession` | src/sessions/sessions.service.ts:264-288 | refuse what is absent; revoke and refuse what has expired; otherwise touch, renew when due, and return |
| `Sessions.SessionsService.RevenueSession` | src/sessions/sessions.service.ts:245-254 | the new expiry is written to the cache entry and to the row |
| `Sessions.SessionsService.RevokeSession` | src/sessions/sessions.service.ts:229-243 | the session leaves the cache and the table |
| `Sessions.SessionsService.EditApiKeyScopes` | src/auth/auth.service.ts:123-135 | only the owner's existing key is changed, and its cache entry dropped |
| `Sessions.SessionsService.InvalidateSessionsByUserId` | src/sessions/sessions.service.ts:102-109 | exactly the user's entries leave the cache |
| `Sessions.SessionsService.ChangeAdmin` | src/auth/auth.service.ts:267-276 | the user row is updated and the user's cached sessions dropped |
| `Sessions.SessionsService.CleanSessionsCache` | src/sessions/sessions.service.ts:71-81 | exactly the entries unused for longer than the cache life time leave the cache |
| `SessionTheorems.StepSimulates` | src/sessions/sessions.service.ts:200-288 | each operation has the effect on the tables and the answer of a service without a cache, and keeps the cache coherent |
| `SessionTheorems.CacheIsTransparent` | src/sessions/sessions.service.ts:200-288 | over every run from an empty cache, all answers and verdicts, with type, scopes, expiry and admin flag, are those of a service that always reads the tables |
| `SessionTheorems.FetchIsCurrentIff` | src/sessions/sessions.service.ts:200-227 | a bare fetch after any run from an empty cache is current iff not (the entry is cached and its row was purged), and such a session is refused |
| `SessionTheorems.ExpiryNeverDecreases` | src/sessions/sessions.service.ts:256-262 | over every run a surviving session's expiry never decreases |
| `SessionTheorems.ActiveSessionIsNeverRefused` | src/sessions/sessions.service.ts:256-288 | after any run from an empty cache and a login, a session validated at gaps of at most a day and its life time is never refused |
| `SessionTheorems.IdleSessionIsRefused` | src/sessions/sessions.service.ts:256-281 | after any run from an empty cache, a session unused for more than a day plus its life time is refused, also one that was in the tables at the start and reached no further than that |
| `SessionTheorems.RejectionIsPermanent` | src/sessions/sessions.service.ts:229-281 | a session refused after any run from an empty cache is refused after every further run |
| `SessionEffects.AcceptedViewIsCurrent` | src/sessions/sessions.service.ts:200-288 | after any run an accepted validation shows the session's row, of which only the expiry may just have changed, with the user name and admin flag of the users table |
| `SessionEffects.AdminChangeEffect` | src/auth/auth.service.ts:267-276 | an admin change sets the flag of an existing user and nothing else in the tables, and drops exactly that user's entries from the cache |
| `SessionEffects.AdminChangeTakesEffect` | src/auth/auth.service.ts:267-276 | over every run, every session of the user that is accepted after the change shows the flag that was set, until the next change |
| `SessionEffects.LoginEffect` | src/sessions/sessions.service.ts:126-149 | an existing user gets a session of kind session, without scopes, that expires after its life time; no other row changes |
| `SessionEffects.NewKeyEffect` | src/sessions/sessions.service.ts:151-180 | a key has the scopes asked for and does not expire; no other row changes |
| `SessionEffects.IssuedIdentityIsKept` | src/sessions/sessions.service.ts:126-288 | over every run a session or key shows its user, kind and scopes until its scopes are edited, and a key is accepted at any time until it is revoked |
| `SessionEffects.EditTakesEffect` | src/auth/auth.service.ts:123-135 | only the owner's edit succeeds, changes only that row, and shows in every accepted validation until the next edit |
| `SessionEffects.LogoutEffect` | src/sessions/sessions.service.ts:229-243 | a logout removes the session from cache and table and touches no other |
| `SessionEffects.LogoutIsFinal` | src/sessions/sessions.service.ts:229-281 | over every run, a session is refused after its logout |
| `SessionEffects.PurgeEffect` | src/sessions/sessions.service.ts:83-100 | a purge removes exactly the rows that may expire and have |
| `SessionEffects.CleaningEffect` | src/sessions/sessions.service.ts:71-81 | cleaning removes exactly the entries whose last use is longer ago than the life time |
| `SessionEffects.UseProlongsEntry` | src/sessions/sessions.service.ts:264-288 | an accepted validation dates its entry, which then stays exactly for the life time |
| `SessionEffects.FetchKeepsDate` | src/sessions/sessions.service.ts:200-227 | a fetch caches what it finds under its date once, and changes no other entry |
| `Tokens.TokenFilesService.AddSharedFile` | src/token-files/token-files.service.ts:82-91 | a new row is appended, only a public one clearing the page caches; a taken id is tried for ever |
| `Tokens.TokenFilesService.GetSharedFileByID` | src/token-files/token-files.service.ts:101-114 | the cached value, else the row or its absence, which is then cached |
| `Tokens.TokenFilesService.GetSharedFiles` | src/token-files/token-files.service.ts:124-148 | the cached page, else the listing's page, which is then cached |
| `Tokens.TokenFilesService.GetCountSharedPages` | src/token-files/token-files.service.ts:150-171 | the cached count, else the number of pages of the listing |
| `Tokens.TokenFilesService.UpdateSF` | src/token-files/token-files.service.ts:204-211 | all caches are dropped and the row is changed; a missing one is tried for ever with the table as it was |
| `Tokens.TokenFilesService.RemoveSharedFile` | src/token-files/token-files.service.ts:181-192 | all caches are dropped and the row removed; the error for a missing one reaches the caller |
| `Tokens.TokenFilesService.UpdatePathTokens` | src/token-files/token-files.service.ts:213-226 | exact paths are renamed first, then every row starting with the old path is rewritten |
| `Tokens.TokenFilesService.CleanCache` | src/token-files/token-files.service.ts:52-69 | exactly the stale tokens and pages leave their caches |
| `TokenTheorems.PrivateTokenUnlisted` | src/token-files/token-files.service.ts:82-85 | a token that is not public changes no listing, so the page caches may stay |
| `TokenEffects.ListingIsShown` | src/token-files/token-files.service.ts:133-143 | a listing holds, in the order of the table, exactly the public tokens that do not expire or have not yet |
| `TokenEffects.PagesShowListing` | src/token-files/token-files.service.ts:124-171 | pages hold 64 tokens, the last one the rest, and their number is the least that shows the listing |
| `TokenEffects.LookupIff` | src/token-files/token-files.service.ts:101-114 | a lookup gives the row with the id, and nothing iff there is none |
| `TokenEffects.AddEffect` | src/token-files/token-files.service.ts:82-91 | a new id is found, other ids keep their rows, a taken one adds nothing, and cached pages go iff the token is public |
| `TokenEffects.RemoveEffect` | src/token-files/token-files.service.ts:181-192 | a removed id has no row, every other row stays in order, and nothing stays cached |
| `TokenEffects.RemovedIsNotServed` | src/token-files/token-files.service.ts:101-192 | over every run after a removal that does not add the id again, it is looked up as absent and shown on no page |
| `TokenEffects.RemoveByPathEffect` | src/token-files/token-files.service.ts:194-202 | exactly the user's tokens with that very path go, the others stay in order, and nothing stays cached |
| `TokenEffects.UpdateEffect` | src/token-files/token-files.service.ts:204-211 | the row with the id gets the new visibility, expiry flag and date, each in its field; all else stays |
| `TokenEffects.ChangeIsServed` | src/token-files/token-files.service.ts:101-211 | the next lookup shows the change, whatever was cached |
| `TokenEffects.MoveEffect` | src/token-files/token-files.service.ts:213-226 | what follows the old path follows the new one, the folder's own token gets the new path (and once more its extension), all else stays |
| `TokenEffects.CleanEffect` | src/token-files/token-files.service.ts:52-69 | exactly the tokens and pages last used longer ago than the life time go |
| `TokenEffects.UseEffect` | src/token-files/token-files.service.ts:101-171 | what is asked for is cached under the date of this use, as it was if cached; nothing else changes |
| `TokenTheorems.CachesStayFresh` | src/token-files/token-files.service.ts:51-226 | over every run, each cached page and the cached count are the listing of the current table at their time of fetch, and each cached token is its current row |
| `TokenTheorems.ServedPagesAreListings` | src/token-files/token-files.service.ts:124-171 | what is served after any run is such a listing |
| `TokenTheorems.PagesLastIff` | src/token-files/token-files.service.ts:124-148 | the pages of one moment are those of a later one iff no public token expires in between |
| `TokenTheorems.ServedPageIsCurrentIff` | src/token-files/token-files.service.ts:124-148 | after any run a cached page is what the query gives now iff it is empty or no token listed up to its end at its fetch has expired since |
| `TokenTheorems.ServedCountIsCurrentIff` | src/token-files/token-files.service.ts:150-171 | after any run the cached number of pages is what the query gives now iff no more tokens have expired since its fetch than the last page then had beyond its first |
| `TokenTheorems.ServedTokenIsCurrentIff` | src/token-files/token-files.service.ts:101-114 | a token lookup after any run is current iff not (an absence is cached and the row exists) |
| `TokenTheorems.CachedAbsenceOutlivesCreation` | src/token-files/token-files.service.ts:82-91 | creating a token does not clear a cached absence of its id |
| `TokenTheorems.MoveIsPrefixSubstitutionIff` | src/token-files/token-files.service.ts:213-226 | a move is exactly the prefix substitution on all paths iff not (the new path properly extends the old one and a token has the old path itself) |
| `TokenTheorems.MoveTouchesOnlyTheFolderIff` | src/token-files/token-files.service.ts:213-226 | a move rewrites exactly its owner's tokens at and below the folder iff every token whose path begins with the old one is such a token, and none has the old path itself while the new one begins with it |
| `TokenTheorems.MovingRewritesTwice` | src/token-files/token-files.service.ts:213-226 | moving `docs` to `docs2` makes its token point to `docs22` |
| `TokenTheorems.MovingTakesSiblingTokens` | src/token-files/token-files.service.ts:213-226 | moving `docs` to the free name `old` makes its owner's token of `docs2/a` point to `old2/a` |
| `TokenTheorems.MovingBackRestores` | src/token-files/token-files.service.ts:213-226 | moving back restores the table when neither path is a prefix of the other and nothing lay under the new one |
| `Charts.BucketsAscend` | src/logs/logs.service.ts:278-302 | the buckets of a custom range ascend without overlap |
| `Charts.ChartShape` | src/logs/logs.service.ts:261-302 | a range has one bucket more than whole hours (under 49 hours) or days; the first and the last are cut at the ends of the range, the others are the whole units between |
| `Charts.BucketCounts` | src/logs/logs.service.ts:278-302 | with at least an hour between the ends, the bucket counts add up to the range's count minus that of the one omitted unit |
| `Charts.BucketsPartitionIff` | src/logs/logs.service.ts:278-302 | for any two ends, there is a chart whose counts add up for every log iff the range is not reversed and its start lies no later in its unit (hours under 49 hours, else days) than the end, or, under an hour, is the start of the last hour |
| `Charts.LastUnitsPartition` | src/logs/logs.service.ts:208-217 | the fixed charts count every entry from the start of their oldest unit to the end of the current one |
| `Charts.LastUnitAt` | src/logs/logs.service.ts:208-217 | each bucket of a fixed chart is one whole unit, in a row up to the current one |
| `Charts.TodayStartsAtMidnight` | src/logs/logs.service.ts:244-259 | today's chart starts exactly at midnight |
| `RecentTokens.GetRecentViewedLogs` | src/logs/logs.service.ts:55-71 | from the 500 oldest entries in ascending order, the loop keeps the last date per token and sorts newest first |
| `RecentTokens.KeptDateIsLatest` | src/logs/logs.service.ts:58-64 | in ascending logs the date kept is the latest visit |
| `RecentTokens.UnorderedLogsKeepTheWrongDate` | src/logs/logs.service.ts:60-64 | without that order it is not |
| `RecentTokens.RecentTokensByLatestVisit` | src/shared-file/shared-file.service.ts:305-327 | for every log, the list holds each public token seen in the entries taken exactly once, by non-increasing latest visit among them |
| `RecentTokens.RecentIsCurrentIff` | src/logs/logs.service.ts:55-71 | the dates kept are the latest of the whole log iff every entry has its token and date among those taken; without repeated entries, iff there are at most 500 |
| `TreeSchedule.TreeUpdater.AddUserIndexUpdateSchedule` | src/files/files.service.ts:51-54 | a user is queued once |
| `TreeSchedule.TreeUpdater.BeginUpdate` | src/files/files.service.ts:60-62 | the drain takes the last user queued |
| `TreeSchedule.TreeUpdater.WalkDirectory` | src/files/files.service.ts:531-535 | the new tree shows the directory as it is when the walk begins |
| `TreeSchedule.TreeUpdater.StoreTree` | src/files/files.service.ts:531-535 | the walked tree replaces the user's cached one |
| `TreeSchedule.TreeUpdater.UpdateIndexes` | src/files/files.service.ts:57-71 | a drain that other requests interrupt at its suspensions for any number of turns empties the queue and leaves every tree up to date |
| `TreeSchedule.NoScheduledChangeIsLost` | src/files/files.service.ts:51-71 | in every interleaving, a user neither queued nor being updated has a cached tree no older than their last scheduled change |
| `TreeSchedule.StepEffects` | src/files/files.service.ts:51-71 | what each step does: queue once and last, take the last, walk the directory as it is then, store what was walked |
| `TreeSchedule.TreesAreNotAhead` | src/files/files.service.ts:51-71 | in every run no cached tree is newer than its directory |

## Left out

- Requests are atomic in the runs of the machine. Initialising an upload awaits between its checks and its creation;
  what other requests can do there is stated for single states (`LateCreationConsistentIff`, `TwoRequestsForOnePath`,
  `TwoAdmissionsIff`), not for runs. Nor is a session or token operation interleaved with another one half-way.
- Declared upload sizes are natural numbers of bytes; the request body only asks for a number.
- Files and folders that are moved, renamed or created in one shot while an upload writes at or below them.
- `UploadMachine.BeginWrite`: a chunk at a negative position makes opening the stream throw at once, so the source
  queues it again and retries without ever suspending; here its write stays suspended and can only fail.
- `UploadMachine.AfterError`: in a loop whose upload is gone the handler throws, which by default ends the process;
  here only the loop ends.
- `closeFile`: it removes the path without the user id, which is not the upload's key.
- `Quota.DebtBoundsQuota`: assumes that the dedicated space stays what it is, and starts without uploads.
- `QuotaMeasure.MeasurementCoversFinishedFiles`: the directory is the one at the moment the measurement arrives; a
  walk takes time, and what finishes meanwhile may be missed.
- `UploadMachine.UploadPipeline.DeleteFile`: the tokens of a removed folder are not part of the machine
  (`Tokens.TokenFilesService.DeleteTokensByPath` removes them).
- `TreeIndex`, `DirTree`: the MIME type, a function of the extension, and the `tokens` field, always 0 in trees.
- `DirTree.Generate`: unreadable directories whose `lstat` succeeds, and paths that `join` would normalise.
- `IndexSearch.Pattern`: which names a regular expression matches, and which patterns are invalid; a pattern is a
  test together with its source text. Case folding beyond ASCII and the order of characters outside the basic plane.
- `Sessions.Due`: life times in months and years, whose length varies; a life time is a number of milliseconds.
- `SessionTheorems.CacheIsTransparent`: what a bare `retrieveSession` returns is not among the outputs compared
  (`FetchIsCurrentIff` covers it). Session ids are never reused.
- `Sessions.SessionsService.EditApiKeyScopes`: the scopes are set as given; names, devices and token strings of
  session rows, which no modelled operation reads, are dropped.
- `Tokens.Moved`: the database may match prefixes without regard to case, and `$` patterns in the replacement text;
  both sides are plain strings here. The creation date of a token and the listings of one user.
- `Tokens.TokenFilesService.AddSharedFile`: a call that repeats its query for ever is one that ends as `Retries`; a
  row that another request removes meanwhile would end it.
- `Tokens.TokenFilesService.UpdateSF`: likewise, if another request adds the row meanwhile.
- `Tokens.PageQuery`: the query names no order, so the database may list rows in any; here it is that of the table.
- `RecentTokens.GetRecentViewedLogs`: token ids that are also column names of the log table, or numerals, which a
  record lists before its other keys.
- `Charts.CustomDimension`: labels, time zones and daylight saving.
- `TreeSchedule.Step`: overlapping drain loops, other writers of the cached tree, and updates that fail. A directory
  is walked in one step.
- Retry loops, event emission, compression, hashing, tokens of the web layer and all other plumbing.
