# lane-broker: a verified model of its protocols

lane-broker schedules work on one machine from files under one global lock. This project models the parts whose correctness
spans several functions, a loop or a whole run, and proves what the source promises of them. A locked body is one atomic
step; clocks, process tables, liveness probes, failing writes and crashes are inputs. Check the whole project with
`dafny verify dfyconfig.toml`.

| file | models |
|---|---|
| `Relocation.dfy`, `RoundTrip.dfy`, `TreeRelocation.dfy` | install paths to tokens and back: the byte rewriter, the round trip, a whole tree |
| `Borders.dfy`, `CopyChecks.dfy`, `Publishable.dfy` | what can be read across raw and inserted bytes, and so when the check of a copy or the leftover check refuses, for one tree and for all trees |
| `ChunkedSearch.dfy` | the search through one reused buffer |
| `MissingPackages.dfy` | which absent packages an install may lack |
| `Eviction.dfy` | leases and least-recently-used eviction of the dependency cache |
| `Migration.dfy` | the scheduler cutover with crashes and failing writes, the drain |
| `Attempts.dfy` | settlement of an attempt between several processes |
| `PushGate.dfy` | who waits behind whom at a pre-push gate |
| `Descendants.dfy`, `OrphanReap.dfy` | the process tree of a lease, its reaping, the orphan state machine |
| `Priority.dfy`, `EffectiveView.dfy`, `FairnessStore.dfy` | score, order and clock; reservation promotion; the counter store |
| `ClassCaps.dfy`, `Estimates.dfy`, `Means.dfy`, `Watchdog.dfy` | sim caps, the anchor of the speed factors, comparing geometric means, the idle watchdog |
| `Sorting.dfy`, `Common.dfy` | the stable sort and small shared definitions |

Classes stand where the source updates fields or files in place; their methods state the whole new state, and what the
source promises is proved of the specification over every run.

## Where the code does not do what it is said to do

Each of these has a lemma or method with a concrete input, beside a statement of exactly when the code is right.

- A ticket that is cancelled while queued locally and whose supervisor then dies is settled as lost, not as cancelled: the
  writer of `settleAbandonedLocalAttempt` ignores what it is told (`Attempts.LostDespiteCancel`, `Attempts.MarkedSettlement`).
- A drain can leave its pause behind without a marker when writing PAUSE throws after taking effect
  (`Migration.LateFailureUncovers`) or removing it throws before (`Migration.FailedResumeUncovers`), exactly under the fates
  that `Migration.StateRoot.MigrateThenCleanUp` names for one call and `Migration.StateRoot.DrainMigrateScheduler` for a
  whole drain; crashes alone never do that. A drain whose pid a killed drain had
  before it drops the ownership of that one's pause when the probe fails and the old marker counts as alive
  (`Migration.OwnMarkerUncovers`, `Migration.StateRoot.StartDrain`).
- A failed write of the high-water mark lets a credited wait shrink (`Priority.WaitCanShrink`, `Priority.NeverUndercut`).
- Moving the anchor changes the predictions of hosts without stored factors, and of estimators whose scaled median falls in
  another bucket (`Estimates.UnknownHostMoves`, `Estimates.BucketCrossingMoves`).
- A tree that collection accepts can still be refused when its copy is checked, and a copy restored to new paths can be
  refused as a leftover: a path is read across the border of raw and inserted bytes (`CopyChecks.CollectedButRefused`,
  `CopyChecks.RestoredButLeftover`; exactly when: `CopyChecks.CollectedIsPublishable`, `CopyChecks.LeftoverExactly`).
  Which candidates can cause the first at all is decided by `Publishable.PublishedExactly`.
- The comment above `reap` promises at most one table read after both deadlines. The code can make two, the last of the TERM
  phase and one of the KILL phase: exactly when that TERM sweep was past both deadlines and had not found everything gone
  (`Descendants.SlowTablesReadTwice`, `Descendants.DescendantTracker.Reap`).

## Model

| member | source | states |
|---|---|---|
| `Relocation.NextOccurrence` | src/deps-cache.js:1475-1483 | The search over the sorted pairs finds the leftmost occurrence after `last`, the longest one where several start, and none earlier is skipped. |
| `Relocation.RewritePrefixes` | src/deps-cache.js:1455-1492 | The loop over `last` and `parts` is the leftmost-longest single pass. It succeeds exactly when every such occurrence has an allowed byte or the edge of the text on either side (for a link target: begins it, and ends it or is followed by a slash), and then has replaced just those. |
| `Relocation.CutDecides` | src/deps-cache.js:1455-1492 | The same of the pass from any point, with the occurrences and the allowed bytes written out. |
| `Relocation.AcceptedIsSubst` | src/deps-cache.js:1455-1492 | A pass that refuses nothing is plain substitution of every leftmost-longest occurrence, and a pass that accepts anywhere never refuses. |
| `RoundTrip.TokensPrefixFree` | src/deps-cache.js:1460-1463 | Of two tokens of one nonce neither is a proper prefix of the other. |
| `RoundTrip.NoTokenAtRawByte` | src/deps-cache.js:1455-1463 | In templated text no token starts at a byte that was copied, not even across the border to a real token, if the tail was absent from the original. |
| `RoundTrip.RestoreAfterTemplate` | src/deps-cache.js:1455-1492 | For every accepted text: restoring the templated text gives the original with each leftmost-longest path replaced by its new path, and the original itself when the paths are the same. |
| `TreeRelocation.TokensAreGood` | src/deps-cache.js:1460-1463 | The tokens of groups with disjoint roles have the shape the round trip needs and are pairwise different. |
| `TreeRelocation.GroupByPath` | src/deps-cache.js:1520-1525 | Roles that share a path become one group; the groups cover exactly the given places and have distinct paths. |
| `TreeRelocation.ScanTree` | src/deps-cache.js:1553-1610 | The scan stops at the first entry that is not fine, or marks exactly the entries and the paths that are named. |
| `TreeRelocation.CollectInstallPathReferences` | src/deps-cache.js:1519-1540 | At most five nonces; a nonce that occurs in the tree is never used; what is collected has only entries that name no path or can be rewritten as text or link target; a refusal names an entry that is binary, or has an occurrence that must stay. |
| `TreeRelocation.VerdictMeaning` | src/deps-cache.js:1578-1602 | The verdict on an entry: collision if the token tail is there, fine if no path is, binary for a path in no text, ambiguous for an occurrence out of place. |
| `TreeRelocation.TokenText` | src/deps-cache.js:1460-1462 | A token byte by byte, for two roles that share a path. |
| `TreeRelocation.CollectedIsTemplated` | src/deps-cache.js:1034-1038 | What collection accepted, publishing can template: the check with every candidate path carries over to the recorded ones. |
| `TreeRelocation.PublishTemplated` | src/deps-cache.js:1034-1086 | The cloned copy is the tree with exactly the recorded entries templated, or templating is refused, exactly when one of them has an unacceptable occurrence. |
| `TreeRelocation.RelocateRestoredTree` | src/deps-cache.js:1695-1729 | Each error exactly under its condition, in the order the code tests them; otherwise the stored tree with tokens replaced, in which neither the token tail nor an old path outside every new path is left. |
| `TreeRelocation.WholeTreeRestored` | src/deps-cache.js:1695-1723 | Collect, publish, restore: every file and link target is the original with each install path replaced, unrecorded entries included; only paths the tree names need a new path. |
| `TreeRelocation.UnnamedPathsDoNotMatter` | src/deps-cache.js:1519-1540 | Where every candidate has a new path, replacing all candidates gives the same tree as replacing the recorded ones. |
| `TreeRelocation.StoredHoldsPlaceholder` | src/deps-cache.js:1709-1719 | A restore of what was published never fails for want of a placeholder. |
| `TreeRelocation.SamePlaceIsIdentity` | src/deps-cache.js:1695-1729 | Restoring to the same paths gives the tree back and the leftover check passes, also where a path the tree never named is gone. |
| `Borders.OccursInRewritten` | src/deps-cache.js:1470-1492 | A text that never stays raw occurs in a rewritten text exactly when it is read across the border of raw and inserted bytes. |
| `Borders.AbsoluteNeverReads` | src/deps-cache.js:1455-1463 | In an accepted rewriting to tokens no absolute path is read across a border unless it has an `@` after a leader; in a symlink target none is. |
| `CopyChecks.VerifyTemplatedCopy` | src/deps-cache.js:1662-1673 | Passes exactly when every recorded entry holds a token and no candidate, and everything else neither; a refusal names an offending entry. |
| `CopyChecks.PublishToStore` | src/deps-cache.js:1034-1087 | Published exactly when templating succeeds and the copy passes its check. |
| `CopyChecks.CollectedIsPublishable` | src/deps-cache.js:1662-1673 | The copy of a collected tree passes exactly when no candidate is read across a border of a recorded entry. |
| `CopyChecks.PlainPathsArePublished` | src/deps-cache.js:1662-1673 | With absolute candidates that have no `@` after a leader every collected tree is published. |
| `CopyChecks.CollectedButRefused` | src/deps-cache.js:1662-1673 | A tree that is collected and then refused: the text "/a /t" with the candidates "/t" and "/a @". |
| `Publishable.PublishedExactly` | src/deps-cache.js:1662-1673 | For given candidates and nonce: every tree collected with them is published exactly when no candidate goes on, after a leader, as a token of theirs begins, with no candidate starting in its bytes before that. |
| `Publishable.ReadableIsRefused` | src/deps-cache.js:1662-1673 | For every such candidate there is a tree that is collected and whose copy is refused. |
| `Publishable.CrossingIsReadable` | src/deps-cache.js:1662-1673 | A candidate read across a border of any recorded entry of any collected tree is such a candidate. |
| `Publishable.AtAloneIsPublished` | src/deps-cache.js:1662-1673 | An `@` after a leader does not suffice: with "/t" and "/a @x" every collected tree is published. |
| `CopyChecks.LeftoverExactly` | src/deps-cache.js:1725-1729 | A restore of a published tree is refused as a leftover exactly when the nonce's tail or a stale candidate is read across a border at the new paths; it never lacks a placeholder. |
| `CopyChecks.ApartDestinationsSucceed` | src/deps-cache.js:1725-1729 | No leftover when no needle overlaps a destination. |
| `CopyChecks.RestoredButLeftover` | src/deps-cache.js:1725-1729 | A restore that is refused: "/t/x" moved from "/t" to "/n" when an old temp dir was "/n/x". |
| `ChunkedSearch.WindowReader.NextWindow` | src/deps-cache.js:1259-1279 | Every window is a contiguous piece of the file that starts with the carried overlap, although one buffer is overwritten in place. |
| `ChunkedSearch.WindowCompletes` | src/deps-cache.js:1259-1281 | A needle occurs in what has been read so far exactly when it did before or occurs in the new window, given the overlap of longest minus one. |
| `ChunkedSearch.FileNeedleHits` | src/deps-cache.js:1289-1300 | For every chunk size and every pattern of short reads: the needles reported are exactly those in the whole content, and binary means a NUL byte in it. |
| `ChunkedSearch.FileContains` | src/deps-cache.js:1284-1287 | True exactly when some needle occurs in the whole content. |
| `MissingPackages.ResolveLockPath` | src/deps-cache.js:713-723 | The loop finds the innermost enclosing directory that has the package. |
| `MissingPackages.ResolveIsNearest` | src/deps-cache.js:713-723 | The package is that of the first directory on the way outwards which has it, each directory being what stands before the last `/node_modules/` of the one before. |
| `MissingPackages.NoDirectoryIsSkipped` | src/deps-cache.js:713-723 | On that way lies every directory of the path, if no package is itself called `node_modules`. |
| `MissingPackages.DependentsByPath` | src/deps-cache.js:725-737 | The map holds, for every path, exactly the packages that ask for it. |
| `MissingPackages.LeastClosed` | src/deps-cache.js:755-766 | Whatever the order, the loop ends with a closed set that lies in every closed set. |
| `MissingPackages.FindMissingInstalled` | src/deps-cache.js:747-769 | The packages found are exactly the absent ones outside the least set that holds the skipped ones and is closed under being absent, optional, and asked for by gone ones only, each once; the report is their shortened names, sorted. |
| `MissingPackages.ExcusedExactly` | src/deps-cache.js:747-769 | An absent package is excused exactly when it is optional, something asks for it, and everything that does is skipped or excused. |
| `MissingPackages.RootRequestNeverExcused` | src/deps-cache.js:747-769 | An absent package that the root asks for is always reported. |
| `Eviction.EvictLeastRecentlyUsed` | src/deps-cache.js:1194-1240 | Only unleased entries move; the store fits or all undamaged rest is leased or stuck; nothing undamaged moves once it fits; what moved was used no later than any movable survivor. |
| `Eviction.PromiseInLeases` | src/deps-cache.js:1147-1176 | In lease files: what moved had none of a live process and none that cannot be read; what could move and stays is undamaged, and the store fits. |
| `Eviction.Store.AcquireLease` | src/deps-cache.js:1128-1145 | A lease is taken exactly on an entry that is still there, and every live hold keeps its entry. |
| `Eviction.Store.Trim` | src/deps-cache.js:1147-1176 | In every reachable state a trim moves no entry that a live process holds. |
| `Eviction.Store.Release` | src/deps-cache.js:1128-1145 | Releasing and trimming in one section: the promise of a trim over the store without that lease, and the entries of all other live holds stay. |
| `Migration.StateRoot.FenceLegacyQueue` | src/migrate.js:147-168 | Wherever it dies or throws: no moved-aside directory is lost or overwritten, a fence stays a fence, and success means the queue is fenced. |
| `Migration.StateRoot.SwapQueue` | src/migrate.js:159-166 | The two renames: the legacy directory is kept under a fresh name whatever happens between them. |
| `Migration.FreshAside` | src/migrate.js:160-161 | The name taken is free, and it is the first free one. |
| `Migration.VerdictMeaning` | src/migrate.js:73-131 | The verdicts in the fields of disk and look: ready or migrated exactly with no other migrator, a pause, a known queue entry, nothing queued, leased or attempting, and no process in a readable table; else a refusal, for good or until idle. |
| `Migration.ResumedMeaning` | src/state.js:377-406 | A pause is released only for a marker that owns it, and only if it is that drain's own; an operator's stays. |
| `Migration.StateRoot.Cutover` | src/migrate.js:259-272 | A valid scheduler fence never stands over an invalid fairness file or an unfenced queue, at any crash point; a failed check or a dry run changes nothing: whatever changed, and a migrated answer, means that each check passed. |
| `Migration.StateRoot.MarkedCutover` | src/migrate.js:258-275 | If it dies after changing anything, the `migrating` marker is there to refuse admissions; if it ends, the marker is gone. |
| `Migration.StateRoot.ClearStaleDrainMarker` | src/state.js:377-406 | Only a dead drain's marker goes, its own pause goes first, and coverage holds at every crash point between. |
| `Migration.StateRoot.PauseForDrain` | src/migrate.js:251-257 | Ownership is durable before the pause; a pause is left behind by a throwing call exactly when PAUSE threw late. |
| `Migration.StateRoot.MigrateScheduler` | src/migrate.js:235-292 | The status for every disk and sight; a change of queue, files or fences, or a migrated answer, means that every check passed, field by field, crashes included; no legacy file or directory is lost; an operator's pause stays; when a drain's call that finds something busy succeeds, and after how many writes. |
| `Migration.StateRoot.DrainCallCoverage` | src/migrate.js:276-291 | What a drain's call leaves paused and covered, as an if-and-only-if in the fates of the PAUSE writes, each by its number. |
| `Migration.StateRoot.MigrateWhenIdle` | src/migrate.js:235-292 | On an idle broker a call finishes the cutover, marker gone, unless one of the writes it makes does not succeed; if all do it reports migrated, recovered or already migrated. |
| `Migration.StateRoot.AnyCalls` | src/migrate.js:235-292 | Any calls by any processes, each crashing, throwing or succeeding anywhere: the fence never stands over less than it promises, no step is undone, and no legacy directory or file is lost. |
| `Migration.StateRoot.RerunsFinish` | src/migrate.js:235-292 | From whatever such calls left, drains' calls on an idle broker finish the cutover if repeated: if no write from number `bound` on fails, after at most one call more than there are writes up to it. |
| `Migration.StateRoot.AnyCallsThenReruns` | src/migrate.js:235-292 | Any calls and then such reruns end with the cutover finished and every legacy directory kept. |
| `Migration.StateRoot.StartDrain` | src/migrate.js:312-328 | When a drain may start; coverage is kept except exactly when a live marker of the same pid owned the pause. |
| `Migration.StateRoot.CallWaiting` | src/migrate.js:357-360 | A waiting drain's migration keeps it waiting exactly when something is busy and all its writes succeed, and then leaves the disk as it was but for a stale `migrating`; if the drain ends there, a pause is uncovered exactly under the condition on its fates. |
| `Migration.StateRoot.PollOnce` | src/migrate.js:345-362 | A poll keeps waiting exactly under a condition on the disk before it, with the disk and the write number it leaves; else what the drain's clean-up leaves is uncovered exactly under the other. Without failing writes it leaves no pause of its own. |
| `Migration.StateRoot.PollUntilDone` | src/migrate.js:344-363 | The loop over all polls ends, and with the clean-up leaves a pause uncovered exactly when the first poll that does not wait does. |
| `Migration.StateRoot.OnePollUncovers` | src/migrate.js:344-363 | That poll finds the queue, files and fences of the disk the drain began on; only markers and pause can differ. |
| `Migration.StateRoot.DrainMigrateScheduler` | src/migrate.js:336-366 | Over all polls, operator pauses included: anything but marker and pause changes, and it answers migrated, only if in some poll both looks passed every check. Begun with every pause covered, a pause ends uncovered exactly under a condition on the disk, the sights and the fates before the drain, and so never by crashes alone unless a live marker of the same pid owned the pause; ended without a crash, marker and pause are gone when writes succeed. |
| `Migration.StateRoot.MigrateThenCleanUp` | src/migrate.js:280-291 | A drain's last call and clean-up leave an uncovered pause exactly when writing PAUSE threw late, or removing it threw early, and a following removal of the marker took effect: a condition on the disk, the sight and the fates before the call. |
| `Migration.LateFailureUncovers` | src/migrate.js:251-257 | A waiting drain's disk and the fate of one write, with PAUSE thrown late: the call makes three writes and leaves the pause without a marker. |
| `Migration.FailedResumeUncovers` | src/migrate.js:280-291 | A waiting drain's disk and the fate of one write, with the removal of PAUSE thrown early: after the clean-up the pause is not covered. |
| `Migration.OwnMarkerUncovers` | src/migrate.js:318-327 | A disk with a live marker of the drain's own pid, on which starting a drain drops the ownership of a pause although no write fails. |
| `Attempts.Ticket.CreateAttempt` | src/attempts.js:139-176 | The new record, or none for an id already known or during a migration. |
| `Attempts.Ticket.PatchAttemptLocked` | src/attempts.js:184-190 | Without a fence: every patched field has the patch's value or is dropped, every other field and the generation stay. |
| `Attempts.Ticket.UpdateAttempt` | src/attempts.js:195-208 | The same, exactly when the generation is the expected one and no migration refuses it. |
| `Attempts.UpdateIsKept` | src/attempts.js:182-208 | What a patch wrote or dropped stays so through every run that does not write that field, for as long as the record is open. |
| `Attempts.Ticket.FallbackToLocal` | src/attempts.js:217-228 | Advances the generation exactly when there is a record and no cancel marker. |
| `Attempts.Ticket.PublishTerminal` | src/attempts.js:275-296 | Settles, cancelled or at the right generation, and removes the record with the write; otherwise nothing changes. |
| `Attempts.Ticket.SettleAbandonedLocalAttempt` | src/local-reconcile.js:21-59 | Settles only an attempt with nobody left to run it, and keeps a result that is there. |
| `Attempts.Ticket.SettleDeadPendingId` | src/pending.js:36-54 | Writes the lost result only for an id that never registered. |
| `Attempts.Ticket.DequeueAndMark` | src/cancel.js:172-179 | Dequeue and marker in one step. |
| `Attempts.WriterAtMostOncePerRecord` | src/attempts.js:275-296 | Over every interleaving of all locked steps the writer runs at most once for a record. |
| `Attempts.StaleNeverWritesOutcome` | src/attempts.js:275-296 | Over every interleaving a publisher of another generation only ever gets the cancelled outcome written. |
| `Attempts.GenerationFence` | src/attempts.js:195-228 | Generations of a record never decrease, so a publisher behind it stays fenced out for the whole run. |
| `Attempts.CancelWins` | src/attempts.js:217-228 | After a marker on an open record no fallback happens, the marker stays, and whoever settles it is told it is cancelled. |
| `Attempts.MarkedSettlement` | src/attempts.js:275-296 | Over every run from a marked, open record: the result written is cancelled exactly when the writer heeds what it is told, writes a cancelled result anyway, or keeps a cancelled one. |
| `Attempts.LostDespiteCancel` | src/local-reconcile.js:21-43 | A run in which a cancelled ticket ends as lost. |
| `Attempts.LostSettlersKeepResults` | src/local-reconcile.js:21-59 | The two lost-settlers never overwrite a result and never act on a leased, queued or parked ticket. |
| `Attempts.DedupedSettlesOnce` | src/attempts.js:163-174 | If every create deduplicates or has a fresh id, the writer runs at most once for an id, whatever else happens. |
| `Attempts.MisdirectedExactly` | src/attempts.js:275-296 | A publisher that read one record writes its outcome for another exactly when a create succeeded in between and the record open by then is unmarked and of the same generation. |
| `Attempts.CarefulNeverMisdirects` | src/supervisor.js:780-783 | Creates as the supervisor makes them, deduplicated or with a fresh id, never succeed once an id has a record or a result, so no publisher is misdirected. |
| `Attempts.ReusedIdNeedsDedup` | src/attempts.js:163-174 | The deduplication is needed: two plain creates of one id let the first record's publisher settle the second. |
| `PushGate.HoldsOfCaller` | src/push-gate.js:110-124 | The one-pass walk with two candidates answers every gate of the caller as the plain definition does. |
| `PushGate.PushHolds` | src/push-gate.js:99-126 | The map equals the quadratic definition: first live running gate of another push, else the earliest live queued one strictly before it of another push, else nobody. |
| `PushGate.HolderIsThat` | src/push-gate.js:81-126 | In the records: the first lease of a live running gate of another push of the caller; else, of the live queued ones of another push that started earlier, or at once with a lower pid, one before all others; else nobody. |
| `PushGate.PushHoldBehind` | src/push-gate.js:128-130 | The same answer for one ticket, queued or not yet. |
| `PushGate.HolderMeaning` | src/push-gate.js:93-126 | A holder is of another push: live and running, or live, queued and strictly earlier. |
| `PushGate.AlwaysOnePush` | src/push-gate.js:93-126 | In every state of every run in which only unheld gates start and markers are cleared after the lease is gone, a caller's live running gates belong to one push. |
| `PushGate.SomeGateIsFree` | src/push-gate.js:93-126 | With live queued gates and no live running one, some gate of the caller can start. |
| `PushGate.WaitingDescends` | src/push-gate.js:81-83 | Waiting leads strictly to earlier pushes, so it never forms a cycle. |
| `Descendants.WalkTree` | src/descendants.js:210-235 | The worklist terminates and records exactly the unprotected marked rows and children of what is reachable by parent links, with their current tokens, keeping all other records. |
| `Descendants.DescendantTracker.FromSnapshot` | src/descendants.js:187-191 | The snapshot without protected pids. |
| `Descendants.DescendantTracker.Scan` | src/descendants.js:210-235 | Every unprotected row that is marked, or joined by a chain of unprotected parent links to the leader or a record whose token still matches, is recorded with its current token, and no other record changes; an unreadable table changes nothing; the leader's token is learned from its first readable row. |
| `Descendants.ScanFindsTree` | src/descendants.js:210-235 | The same of the relation that scans are steps of. |
| `Descendants.DescendantTracker.Live` | src/descendants.js:238-243 | Exactly the unprotected records whose row carries the token or is unreadable. |
| `Descendants.DescendantTracker.SignalLive` | src/descendants.js:252-266 | Exactly the due members get the signal, each once. |
| `Descendants.DescendantTracker.Reap` | src/descendants.js:276-297 | Over the whole reap: one signal of a kind per pid and token, every signal justified by its own table, KILL only after the grace, survivors had their KILL; complete exactly when the last table was readable and nothing recorded ran, and then none of its rows is of the tree; at most two sweeps past both deadlines, and two exactly when the last TERM sweep was and had not found all gone. |
| `Descendants.SlowTablesReadTwice` | src/descendants.js:268-275 | A reap, with its world, trace and phases, of which both sweeps end past both deadlines. |
| `Descendants.ScanIsDetermined` | src/descendants.js:210-235 | Table and memory leave one possible result, so the order of the walk does not matter. |
| `Descendants.SignalledIsOurs` | src/descendants.js:252-297 | Whoever is signalled was recorded at the start or was a member under that very token; a reused pid is never signalled. |
| `Descendants.RootTokenIsKept` | src/descendants.js:215-216 | The leader's token, once learned, never changes over all scans. |
| `Descendants.RecordsAreKept` | src/descendants.js:210-235 | No scan of a run drops a record. |
| `OrphanReap.LeaseFile.StepOrphanReap` | src/lease.js:125-170 | The record after a pass and what it signalled, for every table, clock and record. |
| `OrphanReap.LeaseFile.ReapIfStale` | src/lease.js:178-195 | The same with the boot, supervisor and group checks before it. |
| `OrphanReap.FirstPassNeverKills` | src/lease.js:144-147 | The pass that begins sends no KILL. |
| `OrphanReap.PassFindsTree` | src/lease.js:133-135 | A pass finds every row of the tree below what the lease records. |
| `OrphanReap.FoundStaysFound` | src/lease.js:156-170 | Over every run: what a pass found under a token each later pass finds too, unless a pass protects the pid or a table gives it to another process; while its row is there no release is complete. |
| `OrphanReap.NobodyIsPassedOver` | src/lease.js:148-150 | Over every run: a pass that holds the lease leaves no verifiable process without its signal, sent by it or by an earlier pass under the same token. |
| `OrphanReap.ReleasedExactly` | src/lease.js:136-154 | When a pass removes the lease, in times and in what it sees. |
| `OrphanReap.KillIsDue` | src/lease.js:144-150 | A pass that holds the lease and sees the table sends KILL exactly after a KILL or from the grace on. |
| `OrphanReap.ReleaseCountsSignals` | src/lease.js:128-170 | The count a release reports is the number of signals all passes of the run sent. |
| `OrphanReap.PassKeepsTimes` | src/lease.js:150-167 | Both times are written once, the KILL time only by a pass that sent a KILL. |
| `OrphanReap.IncompleteReleaseIsLate` | src/lease.js:137-154 | Over every run an incomplete release comes 30 s after a KILL of the run or 60 s after its first pass. |
| `OrphanReap.ReleasedInBoundedTime` | src/lease.js:111-170 | A pass 60 s after one pass and another 30 s later leave no lease, whatever the tables say. |
| `OrphanReap.OncePerRun` | src/lease.js:145-165 | Over all passes no process gets the same signal twice under one token. |
| `OrphanReap.OnlyVerifiedAreSignalled` | src/lease.js:148-148 | Only unprotected pids above 1 whose row carries the recorded token are signalled. |
| `OrphanReap.KillComesAfterGrace` | src/lease.js:144-148 | A KILL comes at least the grace after an earlier pass of the run. |
| `OrphanReap.CompleteMeansGone` | src/lease.js:135-137 | A release is complete exactly when the table was readable and nothing recorded ran. |
| `Priority.OrderQueue` | src/priority.js:150-169 | A rearrangement by distinct indices that fixes unreadable records, crosses none, and is strictly in order of score, sim rank, number and index within each run. |
| `Priority.OrderingKeepsRecords` | src/priority.js:150-169 | The ordered queue is a permutation, with unreadable records at their index. |
| `Priority.ScoreCases` | src/priority.js:99-121 | The tier weight is the maximum, reached exactly by highs and by tickets past the horizon. |
| `Priority.MediumAboveLow` | src/priority.js:99-121 | After the same wait a medium is never below a low, and above it until the wait alone is worth ninety-nine hundredths of the tier weight. |
| `Priority.LowReachesFreshMedium` | src/priority.js:99-121 | A low reaches a fresh medium exactly after half a tier's worth of waiting. |
| `Priority.InOrderOfScore` | src/priority.js:123-157 | Within a run: higher score first, then tests before young sims if asked for, then the smaller number, then the earlier record. |
| `Priority.HighAboveOthers` | src/priority.js:113-121 | A high scores strictly above a non-high exactly until that one has waited the horizon. |
| `Priority.NotOvertaken` | src/priority.js:142-157 | From the horizon on no larger number is ahead within the run, sims after tests or not. |
| `Priority.OnlyStarvedBeforeHigh` | src/priority.js:113-157 | A non-high is ahead of a high of its run only past the horizon. |
| `Priority.PriorityClock.AdvanceHwm` | src/priority-clock.js:26-35 | The mark and the returned time, failed write included. |
| `Priority.TimeNeverFalls` | src/priority-clock.js:16-35 | Over a run, whatever the wall clock does, a time once written is never undercut. |
| `Priority.NeverUndercut` | src/priority-clock.js:26-35 | A reading is safe against every next one exactly when it needed no write or its write succeeded. |
| `Priority.WaitNeverShrinks` | src/priority.js:83-91 | Over such a run a ticket's credited wait never shrinks. |
| `Priority.WaitCanShrink` | src/priority-clock.js:26-35 | With a failed write it can. |
| `Priority.NeverStarves` | src/priority.js:99-157 | A stamped, aging ticket is, three age periods later and ever after, behind no larger number of its run, rollbacks included. |
| `EffectiveView.PromoteReservationOwner` | src/priority.js:179-192 | The oldest reservation that may be promoted, and only that one, goes to the front; none means none may. |
| `EffectiveView.PromotionInRecords` | src/priority.js:179-192 | In records: the owner can be reached past readable records, and as a sim past sims only, and no reservation of such an owner has a lower number; with no owner there is none. |
| `EffectiveView.EffectiveView` | src/fairness.js:267-272 | Order plus promotion over eligible live reservations: a permutation of the queue with unreadable records at their index. |
| `EffectiveView.OthersKeepOrder` | src/priority.js:188-190 | Everyone but the owner keeps the relative order. |
| `EffectiveView.PromotionOvertakes` | src/priority.js:184-188 | The owner crosses no unreadable record, and a sim overtakes sims only. |
| `FairnessStore.SchedulerObjectsSurvive` | src/scheduler.js:691-1013 | Every object the scheduler stores comes back as it was, under the reader's head id. |
| `FairnessStore.RecordRoundTrip` | src/fairness.js:157-171 | Storing and reading back is the identity up to the head id exactly when no reserved key is used. |
| `FairnessStore.BlockedSinceMeaning` | src/fairness.js:165-171 | Read back, a conflict is blocked since its grace started, if that is known, else since it was blocked. |
| `FairnessStore.RecordNamesItsKind` | src/fairness.js:157-164 | The stored reason is the kind's name. |
| `FairnessStore.Store.WriteRecord` | src/fairness.js:190-194 | Memory and file change together or not at all, ticket by ticket. |
| `FairnessStore.Store.DropResourceRecord` | src/fairness.js:197-207 | The same for invalidating a snapshot. |
| `FairnessStore.Store.DepartTicket` | src/fairness.js:209-219 | The same for a departure. |
| `FairnessStore.Store.PruneDeparted` | src/fairness.js:222-234 | The same for a prune, entry by entry. |
| `FairnessStore.Store.ReleaseLatches` | src/fairness.js:237-251 | The same for releasing all latches. |
| `FairnessStore.Store.Reservations` | src/fairness.js:252-255 | Exactly the latched tickets with an integer number, each once. |
| `FairnessStore.WrittenIsRead` | src/fairness.js:186-194 | Over every run, failed persists included, a later read returns what was written as long as nothing touched the record. |
| `FairnessStore.DepartedIsGone` | src/fairness.js:209-234 | A ticket that departed or was pruned has no record from then on, over every run, until one is written for it. |
| `FairnessStore.OthersUnchanged` | src/fairness.js:179-257 | An operation changes no ticket it is not about. |
| `FairnessStore.UnreadablePruneRemovesNothing` | src/fairness.js:220-223 | A prune that sees an unreadable record removes nothing. |
| `FairnessStore.ReleasedReservesNothing` | src/fairness.js:237-255 | After a release no reservation is left. |
| `FairnessStore.FailedStepVanishes` | src/fairness.js:179-257 | Leaving a failed operation out of a run changes nothing. |
| `ClassCaps.BookedSims` | src/classes.js:53-63 | The loop sums exactly what live sim leases are charged. |
| `ClassCaps.NoReasonMeansWithin` | src/classes.js:72-78 | No reason means within every cap and out of the test reserve, both ways. |
| `ClassCaps.ReasonNamed` | src/classes.js:72-78 | Which cap is named when several would be breached. |
| `ClassCaps.ChargedMeaning` | src/classes.js:53-63 | What a lease is charged, from its grant, its claim and its weight. |
| `ClassCaps.AlwaysWithinCaps` | src/classes.js:53-78 | Over every run of grants without a reason and of releases, the booking stays within every cap. |
| `ClassCaps.CapDeniedSims` | src/classes.js:128-142 | Exactly the tickets the policy forbids are denied, each with its reason. |
| `ClassCaps.DenialMeaning` | src/classes.js:84-142 | Who is denied: enforcement required but not in force, a broken configuration, or a sim for which no grant it can get fits every cap. |
| `ClassCaps.NotDeniedPasses` | src/classes.js:84-155 | For every claim the functions accept: a sim that is not denied gets a claim that passes, except exactly one with a floor, no cores and too much weight. |
| `ClassCaps.ResolvedIsWellFormed` | src/resources.js:177-182 | A submitted claim has cores, and a floor only below them, so that exception never arises. |
| `ClassCaps.SubmittedPasses` | src/classes.js:84-155 | A submitted sim that is not denied always gets a claim that passes, and the claim stays well formed. |
| `ClassCaps.NeverBelowFloor` | src/classes.js:148-155 | A claim is only lowered, never below its floor, never above what the caps leave. |
| `ClassCaps.LoweredExactly` | src/classes.js:148-155 | A claim is lowered exactly if it asks for more than the whole cores the caps leave and those reach its floor, and then to just those, even where a fraction of a core more would fit. |
| `ClassCaps.DeniedAtEveryLargerGrant` | src/classes.js:80-93 | Denied on the smallest grant means refused at every larger one. |
| `Watchdog.SumTakeAny` | src/no-progress.js:23-33 | The sum over the processes does not depend on their order. |
| `Watchdog.IntervalCores` | src/no-progress.js:23-33 | Churn exactly when the processes differ; otherwise the CPU gained over the elapsed time, with its zero-time cases. |
| `Watchdog.StreakIsIdle` | src/no-progress.js:81-94 | The streak is the longest run of idle intervals that ends with the last observation. |
| `Watchdog.WindowIsIdle` | src/no-progress.js:120-124 | Over any run of idle intervals the processes and the output never change and the CPU gained from end to end is under the limit. |
| `Watchdog.IdleIsQuiet` | src/no-progress.js:20-33 | In an idle interval every process was there before, nothing was written, and none used, with the children it reaped, more than 0.05 CPU seconds a minute. |
| `Watchdog.Snapshot` | src/no-progress.js:102-118 | Readable exactly when every member has a row, and then each member's usage under its identity. |
| `Watchdog.NoProgressWatchdog.Observe` | src/no-progress.js:81-94 | The observation recorded is the tree's usage; the result is the length of that streak, and a positive one means that nothing happened in the window. |
| `Watchdog.NoProgressWatchdog.ShouldKill` | src/no-progress.js:97-99 | A kill means such a window of at least the timeout. |
| `Estimates.SeedingKeepsValid` | src/estimates.js:134-141 | Seeding sets one cell, never the anchor's, and keeps the invariant. |
| `Estimates.ObservingKeepsValid` | src/estimates.js:153-163 | Refining changes one cell, keeps the invariant, never lowers on a censored run, and otherwise moves by at most a tenth of the bounded gap. |
| `Estimates.ObservingMeaning` | src/estimates.js:153-163 | A first observation makes the estimate right; a later one rises exactly if the job took longer than predicted and falls exactly if it took less, by a tenth of the way within the bounds; a censored one raises just to the wall time. |
| `Estimates.RebaseAnchor` | src/estimates.js:178-204 | The anchor moves exactly when it is stale and someone can replace it, to the lower median of all eligible hosts by geometric mean, and then every row, scale and unanchored cell is as the rule says. |
| `Estimates.RebasedMeaning` | src/estimates.js:195-202 | Each factor is divided by the new anchor's, a missing one counting as 1; the counts stay. |
| `Means.NotAboveTransitive` | src/estimates.js:165-165 | Comparing geometric means by powers of products is an order. |
| `Estimates.Median` | src/estimates.js:182-188 | The new anchor is the lower median of the candidates. |
| `Estimates.MedianHalves` | src/estimates.js:165-188 | Half of the other candidates, or one fewer, have no higher geometric mean, the rest no lower one. |
| `Estimates.MovePreserves` | src/estimates.js:169-204 | Cell by cell: a move preserves a host's prediction exactly when the old anchor stores nothing but 1 there, an unknown host's scale is 1, and always for every other host. |
| `Estimates.KnownHostsPreserved` | src/estimates.js:169-204 | Under the invariant old anchor, new anchor and every host with a row keep every prediction, unanchored cells included. |
| `Estimates.MoveKeepsValid` | src/estimates.js:178-204 | The invariant holds again for the new anchor. |
| `Estimates.MovesPreserve` | src/estimates.js:169-204 | The same over any number of moves. |
| `Estimates.UnknownHostMoves` | src/estimates.js:144-147 | A host without stored factors changes its predictions. |
| `Estimates.RescaledPrediction` | src/estimates.js:68-72 | For every host: rescaling an estimator preserves its prediction exactly when the host's prediction for the cell survives the move and the bucket the scaled median falls in has the factor of the one it came from. |
| `Estimates.BucketCrossingMoves` | src/estimates.js:68-72 | That can fail. |

## Left out

- `scheduler.js` and `supervisor.js` beyond the few lines cited above, the remote client and runner, the CPU and memory projection and the shadow evaluator: not part of this model.
- File system, `ps`, ssh, git, npm and systemd: inputs, or writes that may fail.
- Loss of unsynced renames in a power failure: a crash here stops the process between two durable writes taken in program order.
- TreeRelocation.ScanTree, TreeRelocation.CollectInstallPathReferences: refused links (`prunedLink`) and workspace trees are left out.
- TreeRelocation.RelocateRestoredTree: the leftover scan of a warm store entry in place of the tree (`scanRoot`) is left out.
- Text detection (`isRewritableText`), regenerable build artifacts, refused links and workspace trees: an entry's `text` flag and the list of entries are inputs.
- Platform filters of a lockfile entry: the verdict is part of the entry.
- Clean-up of temporary and trashed directories, `purgeTrash`, and access times: eviction sees a listing with `lastUsed`.
- Cancelling a running lease and the polling around it: only the locked steps of `lane cancel` take part in the attempt protocol; a result writer that fails halfway is not modelled.
- Repeats of a push (`isRepeatOfPush`) and detection of the caller: a stamp is an input.
- The silence watchdog, `effectiveRank`, nice levels, log lines and status text: easy members.
- CPU scope units in `stepOrphanReap`: a foreign call without influence on the record's times and signals.
- Rounding: scores, factors and CPU seconds are exact reals; medians and geometric means are products instead of sums of logarithms.
- Descendants.DescendantTracker.Reap: the clock never goes back and moves during a sleep, which comes after every sweep but the last of the TERM phase.
- Publishable.PublishedExactly: asks that no candidate holds the end of a token of its nonce, which is drawn at random when the candidates are known; the code does not test that.
- FairnessStore.RecordRoundTrip: a key whose value is undefined counts as absent.
