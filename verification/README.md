# A model of the workspace sync engine

This project models the engine that keeps a local directory and a sandbox workspace in step, and proves what it
keeps, over all inputs and all runs. It covers `internal/sync` (tree reconcile and apply, staging, the sync cycle,
the runner, the endpoint protocol, framing, the session store), the merge core under
`third_party/mutagen/pkg/synchronization/core` that it calls, the trash and undelete commands, and the notification
wait of the threads command. `dafny verify dfyconfig.toml` checks all of it.

## How it is laid out

Paths are sequences of names, an entry tree is a directory, a file with a digest and an executable bit, or a link; a
root is a map from paths to nodes, and the staging area a map from digests to bytes. The hash is a parameter
everywhere; where printed digests matter it is required to print lower-case hex (`Pass.PrintsHex`).

Code that computes values is modelled as functions with lemmas about them. Code that changes something in place is a
class or a method with a loop, proved against such a function: `Tree.Root`, `Staging.StagingArea`, `Cycle.Session`,
`Undelete.Workspace`, `Transport.Conn`, `Wire.FrameReader`, `Runner.SessionRunner`, `Store.SessionStore`. Protocols and
crash-prone processes are step machines whose runs interleave every party: `Protocol`, `Notify`, `Crash`, and the
uploads of `Staging`.

- From two trees to operations: `Reconcile` (flatten, rank, sort), `Ordering`, `Splice` (what a list of changes
  wants a tree to become).
- Executing them: `Tree`, `Execution`, `Meaning`, `Convergence`, `Staging`.
- Deciding them: `Snapshot` (scan to tree), `Merge`, `Agreement`, `Ancestor`, `Pass`, `Guard`.
- Whole cycles: `Cycle` (one undisturbed cycle on two mutable roots), `Repeats` (undisturbed cycles one after another),
  `Crash` (many cycles that fail or are cut short anywhere, with edits in between, and the runner's judgement of them),
  `Halts` (what a halted session's last cycle had executed), `Stops` (what fails a cycle and halts a session),
  `Losses` (what the steps of such runs destroy), `Incidents` (bad ends that are reached), `Undisturbed` (the step
  machine does what `Cycle` does), `Runner`, `Trash`, `Undelete`, `HaltNote`, `Store`.
- The wire: `Transport`, `Wire`, `Body`, `Protocol`; and `Notify`.

## Main results

- Flattening, sorting and executing preserves meaning exactly when every file finds its content staged and no two
  need the same (`MeaningPreserved`, `MeaningNeedsStaging`); with any staging at all the outcome of every change and
  every path is exact (`ExactOutcome`). Staged content is renamed away, so it serves once: passes repeated toward a
  target reach it after n passes if and only if no content was lacked by more than n files (`Converges`).
- One merge makes both sides agree wherever they do not clash and loses nothing the ancestor did not hold
  (`MergeAgrees`, `PassAgrees`); the recorded ancestor is honest, and the next pass has nothing to do
  (`AncestorIsHonest`, `NextPassIsQuiet`).
- An undisturbed cycle stops exactly where identity, handshake, marker, a failed scan or the guard say, touching
  nothing, and otherwise completes and syncs both roots whatever was stored before (`Cycle.Session.Run`). Undisturbed
  cycles come to rest after as many of them as the most files that first had to be created of one content, and no
  sooner unless the ancestor already had some of those (`Repeats.CyclesComeToRest`, `Repeats.RestExactly`), and so one
  session does that runs them in turn (`Repeats.CycleInTurn`).
- With crashes and edits anywhere, the stored ancestor is always what the committed cycles add up to (`CrashSafety`).
  Whatever a step of a cycle takes away from either root, some committed cycle had found at that path on both sides,
  as long as no edit since the cycle's scan had changed that path (`LocalStepLosesOnlyVouched`,
  `RemoteStepLosesOnlyVouched`); without that proviso it is false (`UnvouchedEditIsLost`).
- What undelete needs, and what it then brings back, is exact for any trash (`RestoreBrings`, `UndeleteRestores`).
- Every halt of every run has executed exactly what its stage says (`Halts.HaltExecutedExactly`), and comes exactly for
  what happened before it (`Stops.HaltsExactly`, `Stops.FailsExactly`). The step machine and the session's own cycle
  meet in `Undisturbed.CycleRefines`.
- Bodies, frames and diagnostics survive any fragmentation (`Receive`, `BodyRoundTrip`, and together `Body.Transfer`);
  after a handshake the two ends of the protocol never fall out of step (`AlwaysInStep`, `OneResponseExactly`), and
  every call ends as what the endpoint did calls for (`CallsEnd`).
- A message is never missed by a waiting reader, a wait returns exactly what was unread, and left to itself it ends
  (`NoLostWakeup`, `WaitReturnsUnread`, `MaximalRunDelivers`).
- A session's runner records exactly the dials, pauses, waits and halts its turns call for (`Runner.SessionRunner.Run`,
  `Runner.PollsAndWaits`).

## Where the code and its comments differ

The model follows the code.

- A request before the handshake is answered with an error and then served all the same, which fails with a second
  error (`internal/sync/endpoint/endpoint.go:105-110`): `Protocol.UnreadyScanMisaligns` shows a scan then leaving the
  ends out of step, and `Protocol.UnreadyAnswers` gives every such call. Protocol claims are about connections after a
  successful handshake.
- A halt is described as having applied nothing (`internal/sync/session/cycle.go:32-34`). What the last cycle had
  executed when a session halts is exactly what the stage it came to says, and it is nothing only for an idle stage:
  `Halts.HaltExecutedExactly`, for the halts a cycle returns and for those the runner raises after one that failed. A
  cycle's own halt for a replaced root or lost content has executed something only while it fetches content, and then
  the sandbox's whole list (`Incidents.LateHaltIsReached`). A halt for a terminated sandbox can follow a cycle cut
  anywhere, and one for a version gap a cycle that failed anywhere but in the local changes:
  `Incidents.TerminatedHaltIsReached` halts with the sandbox's list executed, `Incidents.VersionGapIsReached` with both.
- A connection's first cycle that fails is taken for an endpoint that refused to start whenever the endpoint has written
  any diagnostics at all, although the comment speaks of endpoints that close before their first exchange
  (`internal/sync/session/runner.go:146-163`). A content-loss halt is then stored as a version gap, and the deletions
  it stands for read back as none: `Runner.GuardHaltIsMisread`; `Runner.StoredHaltCounts` says exactly when.
- The content-loss guard can halt a session over what the session did itself. Deletions on either side that it lets
  through, but that come to more than half together, are made on both sides while the ancestor keeps its entries, and
  the next cycle halts: `Repeats.BothDeletionsHaltNext`.
- Content that appears or changes where a cycle is about to create a file is renamed over
  (`internal/sync/tree/tree.go:355`), locally with nothing in the trash, in the sandbox without one:
  `Incidents.EditIsOverwritten` and `Incidents.SandboxEditIsOverwritten` in any state, `Incidents.UnvouchedEditIsLost`
  and `Incidents.UnvouchedSandboxEditIsLost` in runs from the start. Exactly what a step destroys, edits or none, is in
  `Losses.LocalStepTakesExactly` and `Losses.RemoteStepTakesExactly`.
- Files that need one content are created one a cycle. A file that has to wait is normally made by the next cycle, but
  if the ancestor has it already, as it is to be, the next merge takes its absence for a deletion and removes it from
  the side that had kept it: `Repeats.LateComesNext` says exactly when, `Repeats.DeletedDirectoryLosesOne` and
  `Repeats.DeletedDirectoryHappens` show an everyday case.
- A trashing rename that fails is meant to leave the file in place (`internal/sync/session/cycle.go:310-313`), but the
  removal that follows still deletes it, and the trash has nothing: `Trash.FailedRenamesShelterNothing`, and the
  `sameDevice` case of `Cycle.Session.Run`.
- What is trashed is meant to be recoverable (`internal/sync/session/cycle.go:296-298`), but a path trashed twice within
  one second loses the older copy: `Trash.TakenPlace`.
- The content-loss guard compares counts, not contents (`Guard.GuardComparesCounts`). Everything tracked can be swept
  away past it when strangers make up the number, or when files became links (`Guard.StrangersSlipThrough`,
  `Guard.RecastSlipsThrough`); `Guard.SweptExactly` says what a list's removals sweep away, `Guard.DeletionBound` what
  the guard bounds all the same, and `Guard.QuietSideIsSweptExactly` when it is at most half.
- `Overlaps` is meant to refuse any nested root (`internal/sync/session/state.go:262-264`) but lets the filesystem's
  root nest with anything: `Store.OverlapsExactly` and `Store.RootsShareNothing` give the exact condition.
- After a connection breaks, the first failed dial already waits on the doubled backoff
  (`Runner.FirstFailureWaitsDoubled`). The capped power is in the number of waits in a row since the last connection or
  pause (`Runner.Backoff`, `Runner.Streak`), which is the number of failed dials only when nothing was connected before.
- Directories are meant to come before everything inside them (`internal/sync/reconcile/reconcile.go:147-149`). They
  do down to 2^20 levels, that level included, and always before other directories; below that a file in a new
  directory is created first: `Ordering.DirectoryBeforeContents`, `Ordering.DeepDirectoryComesLate`.
- Undelete copies back what it can, but stops at the first path whose directory cannot be made. That can be because
  of what now stands in the root (`Undelete.UndeleteCanFail`) or because of what undelete itself brought back first
  (`Undelete.TwoPassesCanFail`); `Undelete.RestoreBrings` says exactly when it completes.

## Model

| member | source | states |
|---|---|---|
| Lists.SortedNames | internal/sync/reconcile/reconcile.go:186-190 | names of a directory come once each, in ascending order |
| Lists.LeqExactly | internal/sync/reconcile/reconcile.go:186-190 | names are ordered by the first character they differ in, a name before those it begins |
| Lists.SortStable | internal/sync/reconcile/reconcile.go:144 | the stable sort keeps the order of elements that tie |
| Lists.SortSorted | internal/sync/reconcile/reconcile.go:144 | the sort by a total preorder is sorted |
| Entries.SameTree | third_party/mutagen/pkg/synchronization/core/entry.go:301-385 | two trees that hold the same at every path are the same |
| Snapshot.TreeFrom | internal/sync/reconcile/reconcile.go:78-111 | the insertion loop over a sorted scan builds the tree the scan stands for, of which the rows below say what it holds |
| Snapshot.EntrySaid | internal/sync/reconcile/reconcile.go:113-137 | a line becomes an entry exactly when it is a directory, a file whose digest is hex text, or a link, and then the one it says |
| Snapshot.RehexExactly | internal/sync/reconcile/reconcile.go:117-124 | a digest is taken exactly when it is an even number of hex digits, and then in lower case |
| Snapshot.UnsupportedIsLeftOut | internal/sync/reconcile/reconcile.go:113-137 | a socket, or a file whose digest is not hex text, anywhere in a scan changes nothing of the tree |
| Snapshot.OnlySupportedBuild | internal/sync/reconcile/reconcile.go:78-137 | the tree is built of the supported lines as if there were no others |
| Snapshot.JoinConcat | internal/sync/reconcile/reconcile.go:82-84 | a path is ordered by its names with a slash between each two |
| Snapshot.TreeOfDescribed | internal/sync/reconcile/reconcile.go:78-137 | a scan of a parent-closed view, in any order and missing any directories with surviving descendants, builds exactly that view, each line as its own kind, digest in lower case, executable bit and target say |
| Snapshot.SnapshotRoundTrip | internal/sync/reconcile/reconcile.go:78-137 | scanning a tree and building it back gives that tree |
| Snapshot.CountEntries | internal/sync/session/cycle.go:178-187 | the counting loop counts every entry below the root |
| Snapshot.CountIsTracked | internal/sync/session/cycle.go:178-187 | the count is the number of paths the tree holds, its root aside |
| Snapshot.CountOfSnapshot | internal/sync/session/cycle.go:178-187 | for a supported scan without repeats that leaves nothing out, the count of the built tree is the number of lines |
| Reconcile.FlattenMembers | internal/sync/reconcile/reconcile.go:162-237 | flattening two trees emits exactly the removals, creations and mode changes that tell them apart, at every path |
| Reconcile.RemovalsDoNotNest | internal/sync/reconcile/reconcile.go:162-237 | no removal of one flattening lies within another |
| Reconcile.RemovedAbove | internal/sync/reconcile/reconcile.go:166-172 | what lies at or below a removal is gone from the new tree or, at the removal itself, is another kind of thing |
| Reconcile.CreationIsWanted | internal/sync/reconcile/reconcile.go:176-237 | a creation is of what the new tree holds there, never of what the old one already had |
| Reconcile.UncreatedIsThere | internal/sync/reconcile/reconcile.go:176-237 | what the new tree holds and nothing creates was there already |
| Reconcile.ChangesFromMembers | internal/sync/reconcile/reconcile.go:139-145 | the sorted list holds exactly what the changes flatten to |
| Reconcile.ChangesFromNoRepeats | internal/sync/reconcile/reconcile.go:139-145 | from non-nested changes nothing is emitted twice |
| Reconcile.ChangesFromRanked | internal/sync/reconcile/reconcile.go:139-160 | the list is in rank order |
| Ordering.RemovalsApart | internal/sync/reconcile/reconcile.go:139-172 | removals of one list are pairwise non-nested, whatever changes they come from |
| Ordering.ListIsOrdered | internal/sync/reconcile/reconcile.go:139-160 | every list is a stable permutation: removals first and deepest first, directories before those inside them, then the rest unless a directory lies 2^20 levels down |
| Ordering.DirectoryBeforeContents | internal/sync/reconcile/reconcile.go:147-160 | a new directory comes before something made in it if and only if that is a directory too or the directory lies at most 2^20 levels down |
| Ordering.DeepDirectoryComesLate | internal/sync/reconcile/reconcile.go:147-160 | below that level a new directory with one file in it is created after the file |
| Tree.ResolveConfines | internal/sync/tree/tree.go:380-395 | no accepted path, whatever was sent, leaves the root or enters sync's own state |
| Tree.ResolveKeeps | internal/sync/tree/tree.go:380-395 | a path made of proper names outside sync's state is taken as it is |
| Tree.RefusedExactly | internal/sync/tree/tree.go:380-395 | a path is refused exactly when it is empty, starts at the filesystem's root, climbs above the root it is under, or enters sync's state |
| Tree.DotsMean | internal/sync/tree/tree.go:380-395 | empty and "." components are nothing, and ".." takes away the name before it |
| Tree.MkdirAllSucceeds | internal/sync/tree/tree.go:316-320 | directories can be made exactly when nothing else stands at or above the path |
| Tree.MkdirAllMakes | internal/sync/tree/tree.go:316-320 | and then exactly the missing ones are added |
| Tree.RunConcat | internal/sync/tree/tree.go:301-307 | executing two lists one after the other is executing their concatenation |
| Tree.OutcomeExactly | internal/sync/tree/tree.go:309-368 | over any root and any staging, whether one change applies and with which failure it does not |
| Tree.RootRemoval | internal/sync/tree/tree.go:321-325 | a change that removes the root itself takes everything, the staging area with it |
| Tree.Root.MakeDirectories | internal/sync/tree/tree.go:341-348 | the recursive creation makes the missing directories, or nothing |
| Tree.Root.CreateFile | internal/sync/tree/tree.go:341-356 | staged content is renamed into place and leaves the staging area |
| Tree.Root.CreateLink | internal/sync/tree/tree.go:358-368 | a link replaces what is there unless that has children |
| Tree.Root.ApplyChange | internal/sync/tree/tree.go:309-336 | one change, with every failure it can report |
| Tree.Root.Transition | internal/sync/tree/tree.go:301-307 | every change is executed in order, a failure stops nothing, one result each |
| Execution.RemovePhase | internal/sync/tree/tree.go:301-336 | a run of removals takes away exactly what it covers |
| Execution.CreatePhase | internal/sync/tree/tree.go:301-368 | a run of creations over a cleared root applies all but files whose content is missing or taken, and leaves all else alone |
| Meaning.RemovalFacts | internal/sync/reconcile/reconcile.go:162-206 | a list's removal is of something that is there, at a path the executor accepts |
| Meaning.ExactOutcome | internal/sync/tree/tree.go:301-368 | with anything staged, exactly the first file of each staged digest applies, every other change applies, and every path ends as wanted or, at a missed file, as it was |
| Meaning.MeaningPreserved | internal/sync/reconcile/reconcile.go:139-237 | fully staged, executing the sorted list ends with exactly what was wanted, every change applied |
| Meaning.MeaningNeedsStaging | internal/sync/tree/tree.go:341-356 | and only when fully staged and no digest is shared |
| Merge.DiffMeaning | third_party/mutagen/pkg/synchronization/core/diff.go:14-59 | a diff is empty exactly for equal entries, and has only deletions exactly when the target lies within the base |
| Merge.DiffMembers | third_party/mutagen/pkg/synchronization/core/diff.go:14-59 | a diff is exactly the highest differences |
| Merge.DisagreementMeaning | third_party/mutagen/pkg/synchronization/core/reconcile.go:174-386 | at a disagreement exactly the side with nothing new gives way, and a clash is declared when neither does |
| Merge.SideMembers | third_party/mutagen/pkg/synchronization/core/reconcile.go:35-172 | a side's changes are exactly the moves ruled for it, path by path |
| Merge.MergeIsReconciled | third_party/mutagen/pkg/synchronization/core/reconcile.go:523-532 | each side's changes are pairwise non-nested and start from what that side holds |
| Merge.ConflictMembers | third_party/mutagen/pkg/synchronization/core/reconcile.go:35-386 | conflicts are declared at exactly the paths ruled a clash |
| Merge.ConflictsOnce | third_party/mutagen/pkg/synchronization/core/reconcile.go:35-386 | and at none of them twice |
| Merge.ConflictTells | third_party/mutagen/pkg/synchronization/core/reconcile.go:360-386 | a conflict tells of either side exactly what that side has put where the ancestor had something else or nothing |
| Merge.AncestorRecords | third_party/mutagen/pkg/synchronization/core/reconcile.go:60-115 | every change of the ancestor records that something is gone, or what both sides hold there, one entry by itself |
| Agreement.MergeAgrees | third_party/mutagen/pkg/synchronization/core/reconcile.go:35-386 | after both lists the sides hold the same wherever they do not clash, and what they held where they do; neither loses what the ancestor did not hold |
| Agreement.ClashMeansBothNew | third_party/mutagen/pkg/synchronization/core/reconcile.go:243-386 | a clash is declared exactly where both sides hold something new |
| Agreement.LoserHadNothingNew | third_party/mutagen/pkg/synchronization/core/reconcile.go:174-386 | the side that gives way held nothing there the ancestor did not |
| Agreement.SideWant | third_party/mutagen/pkg/synchronization/core/reconcile.go:35-386 | a side is to become the other where it gives way, and to stay as it is everywhere else |
| Agreement.SetAtLook | third_party/mutagen/pkg/synchronization/core/apply.go:10-62 | applying a change to a tree replaces exactly the subtree at its path |
| Agreement.SetAtExactly | third_party/mutagen/pkg/synchronization/core/apply.go:10-62 | and can be applied exactly where its parent is a directory |
| Agreement.ApplyExactly | third_party/mutagen/pkg/synchronization/core/apply.go:10-62 | likewise from no tree at all |
| Ancestor.AncestorUpdated | third_party/mutagen/pkg/synchronization/core/reconcile.go:35-150 | the ancestor changes of a merge always apply, and record agreement only |
| Ancestor.AncestorIsHonest | internal/sync/reconcile/reconcile.go:53-67 | the new ancestor holds at a path what both sides hold, or nothing it did not hold before |
| Ancestor.NextMergeIsQuiet | internal/sync/reconcile/reconcile.go:53-76 | merging again after both lists were executed moves nothing; only clashes remain |
| Pass.Scan | internal/sync/tree/tree.go:61-141 | a scan has one line for every path but the root and sync's state, in path order |
| Pass.ScanGivesTree | internal/sync/reconcile/reconcile.go:78-137 | the tree built from a scan holds what the root holds |
| Pass.ScanCounts | internal/sync/session/cycle.go:152-156 | and tracks as many entries as the scan has lines |
| Pass.PassAgrees | internal/sync/reconcile/reconcile.go:53-76 | a fully staged pass from two scans applies every change on both roots, which then agree but at clashes, nothing unrecorded lost |
| Pass.NextPassIsQuiet | internal/sync/reconcile/reconcile.go:53-76 | the pass after it, from fresh scans, has nothing to do |
| Pass.ConflictsReported | internal/sync/reconcile/reconcile.go:239-250 | a pass reports, once each and in path order, exactly the paths both sides gave something new to |
| Convergence.DigestsNeeded | internal/sync/reconcile/reconcile.go:272-287 | each digest the files of a list need, once, in order |
| Convergence.PassOutcome | internal/sync/session/cycle.go:191-226 | a pass leaves lacking exactly the files whose content another file of the list took first, and all else as the target has it |
| Convergence.PassShrinks | internal/sync/session/cycle.go:191-226 | each pass clears exactly one file of every digest still lacked |
| Convergence.Converges | internal/sync/tree/tree.go:341-356 | after n passes the target is reached if and only if no content was lacked by more than n files |
| Convergence.OnlyFilesRemain | internal/sync/reconcile/reconcile.go:139-237 | after the first pass only file creations are left |
| Staging.StagingArea.Put | internal/sync/tree/tree.go:196-230 | content gets its digest for a name only when it is whole and what was promised; one byte over the limit is read and nothing is kept |
| Staging.StagingArea.CollectStale | internal/sync/tree/tree.go:237-258 | exactly the partial uploads go, and the usable content stays |
| Staging.IntegrityOverRuns | internal/sync/tree/tree.go:193-257 | under any interleaving of uploads, collection and file creation, every digest-named file and everything taken from the area hashes to its digest |
| Staging.FinishExactly | internal/sync/tree/tree.go:207-229 | an upload that ends adds its content exactly when within its limit, as promised and not collected |
| Staging.UsableExactly | internal/sync/tree/tree.go:193-356 | what each step of any interleaving does to the usable content: an upload kept adds it, a creation takes it away and hands it out, nothing else touches it |
| Staging.UploadsExactly | internal/sync/tree/tree.go:196-230 | whatever interleaves with it, an upload is what has arrived for it, in order |
| Staging.WhatIsWrittenIsGenuine | internal/sync/tree/tree.go:193-356 | whatever uploads, collection and creation did to a staging area before, any file change that applies from it has written content that hashes to the digest it named |
| Guard.GuardPassesExactly | internal/sync/session/cycle.go:148-176 | the guard passes exactly when fewer than ten entries are tracked or both sides still have half as many |
| Guard.GuardTells | internal/sync/session/cycle.go:156-169 | a halt names the local root first, and what the side it names has lost of what is tracked |
| Guard.TakenAwayWasLost | internal/sync/session/cycle.go:88-92 | a cycle takes away from one side only what the ancestor tracks and the other side no longer has |
| Guard.SweptExactly | internal/sync/session/cycle.go:94-99 | the removals of a side's list sweep away exactly what that side had, gives way there, and is not of a kind with what the other has |
| Guard.SweptWasLost | internal/sync/session/cycle.go:88-99 | so only what the ancestor tracks and the other side lost, or has as another kind of thing, is swept away |
| Guard.SweptIsYielded | internal/sync/session/cycle.go:94-99 | whatever either side did, what is swept away is exactly what the other side lost or recast of the ancestor and this side still has and gives way at |
| Guard.DeletionBound | internal/sync/session/cycle.go:144-187 | past the guard the paths left empty on either side are at most half of the tracked entries plus one for each untracked entry on the other side; what removals sweep away is at most that plus what the other side recast; at most half if nothing is untracked or recast |
| Guard.QuietSideIsSweptExactly | internal/sync/session/cycle.go:144-187 | an unchanged sandbox loses to removals exactly what vanished or was recast locally: at most half of what is tracked if and only if those are |
| Guard.GuardComparesCounts | internal/sync/session/cycle.go:156-162 | sides with as many entries as are tracked pass, whatever those entries are |
| Guard.RecastSlipsThrough | internal/sync/session/cycle.go:156-162 | ten or more tracked files that all became links pass the guard, and every one is removed from the other side |
| Guard.StrangersSlipThrough | internal/sync/session/cycle.go:156-162 | so are ten or more that all vanished with half as many untracked files in their place |
| Cycle.MovedIsAvailable | internal/sync/session/cycle.go:191-226 | content one side is to create can be read at its own path on the other |
| Cycle.WinnerKeepsItsOwn | internal/sync/session/cycle.go:94-99 | changing the sandbox first leaves what it still has to supply as it was |
| Cycle.LocalReaches | internal/sync/session/cycle.go:264-273 | the local apply ends the same whether renames to the trash work or not; only where they work is content kept |
| Cycle.SyncedAgrees | internal/sync/session/cycle.go:57-114 | a completed cycle leaves both roots agreeing at every path but clashes and files whose content an earlier file took |
| Cycle.InOrderHappens | internal/sync/session/cycle.go:59-114 | the state a cycle is proved to sync from can hold, with roots that differ and content staged |
| Cycle.Session.Greet | internal/sync/endpoint/endpoint.go:112-178 | a root without a marker gets this session's; one with another's halts for a replaced root; a handshake refused for its version halts for a version gap, for its root for a replaced root, for anything else it is retried |
| Cycle.Session.StageRemote | internal/sync/session/cycle.go:191-216 | if every needed file can be read, everything needed is staged, and only what hashes to its name; in any case everything is but what is gone locally, or a file has become a directory or changed and staging fails |
| Cycle.Session.StageLocal | internal/sync/session/cycle.go:249-263 | likewise from the sandbox; fetching fails only for a file that moved or changed there, a replaced root, or became a directory, a retry |
| Cycle.Session.ApplyRemote | internal/sync/session/cycle.go:191-226 | stage, then execute; nothing is executed if and only if staging failed |
| Cycle.Session.ApplyLocal | internal/sync/session/cycle.go:245-274 | fetch, then trash, then execute, on any roots: nothing is trashed if fetching failed, and nothing executed if trashing did |
| Cycle.Session.TrashRemovals | internal/sync/session/cycle.go:264-271 | the loop moves the removals aside one by one and stops only when a trash directory cannot be made |
| Cycle.Session.Begin | internal/sync/session/cycle.go:60-76 | the inode, then the handshake's answer, then the marker decide whether the cycle goes on and with which verdict it stops; going on, the marker is this session's |
| Cycle.Session.SyncFromScans | internal/sync/session/cycle.go:77-114 | past the greeting a cycle halts for lost content exactly when a side has lost most of what is tracked, and else goes on |
| Cycle.Session.SyncRemote | internal/sync/session/cycle.go:191-226 | from two scans of workable roots, the sandbox reaches what the merge asks of it; in any case the whole list is executed, or nothing is and a file could not be sent |
| Cycle.Session.SyncLocal | internal/sync/session/cycle.go:245-274 | from a sandbox already changed, the local root reaches what the merge asks, its removals sheltered where renames work; in any case the whole list is executed with what it removes moved aside, or a file was not supplied or the trash had no room |
| Cycle.Session.Move | internal/sync/session/cycle.go:94-99 | the sandbox is changed first and the local root only once that is done, and how either can fail |
| Cycle.Session.Sync | internal/sync/session/cycle.go:92-113 | with everything in order the cycle completes, both roots reach what the merge asks, and the new ancestor is recorded last; in any case it records and reports what its scans come to, or stops and records nothing |
| Cycle.Session.Run | internal/sync/session/cycle.go:59-114 | the cycle stops at identity, handshake, marker, a failed scan or the guard exactly as those say, with the verdict each refusal deserves and both roots, staging, trash and ancestor untouched; otherwise from roots in order it completes and syncs, and from any roots it ends with both lists executed in full, the sandbox's first, or stops at a file that can no longer be sent, supplied or moved aside, with nothing of the list that needed it executed; a completed cycle has recorded the ancestor and reports the two counts and the conflicts of a pass over scans of both roots, and a stopped one has recorded nothing |
| Repeats.NextRulings | internal/sync/reconcile/reconcile.go:53-76 | after a cycle that could not create some files, the next merge rules every path: clashes stay, and only those files are still moved, the same way again or, where the ancestor has them, the opposite way |
| Repeats.OneFewerLeft | internal/sync/session/cycle.go:191-226 | each undisturbed cycle leaves strictly fewer files of each content to be created on each side, and no new ones |
| Repeats.ExactlyOneFewer | internal/sync/session/cycle.go:191-226 | exactly one fewer, if the ancestor has none of them as they are to be |
| Repeats.LateComesNext | internal/sync/session/cycle.go:101-105 | a file that had to wait is created by the next pass, unless the ancestor has just that file: then the next pass removes it from the side that had it |
| Repeats.ClashStays | internal/sync/session/cycle.go:101-107 | conflicts neither come nor go from one undisturbed cycle to the next, and what lies under one stays |
| Repeats.CyclesComeToRest | internal/sync/session/cycle.go:101-105 | after n undisturbed cycles, if no side first had more than n files of one content to create, nothing is left to do, the roots hold the same but under the conflicts there were at first, and those are as they were |
| Repeats.RestExactly | internal/sync/session/cycle.go:101-105 | and only then, if the ancestor has none of the files to create as they are to be |
| Repeats.CycleInTurn | internal/sync/session/runner.go:135-177 | one session's cycles in turn, from roots in shape and with fresh clocks: unless one is stopped, after as many as the most files first to be created of one content nothing is left to do and both roots hold the same but under conflicts |
| Repeats.OneOfTwoIsRemoved | internal/sync/session/cycle.go:94-105 | where two files of one content that the ancestor has are to be given back to one side, the next pass removes one of them from the other |
| Repeats.DeletedDirectoryLosesOne | internal/sync/session/cycle.go:94-105 | so a directory deleted in the sandbox and changed locally is kept, and then loses one of two files of the same content |
| Repeats.DeletedDirectoryHappens | internal/sync/session/cycle.go:94-105 | there are roots, an ancestor and scans for which that is so |
| Repeats.BothDeletionsHaltNext | internal/sync/session/cycle.go:144-187 | deletions on either side of at most half each, and of more than half together, pass the guard, are made on both sides, and halt the next cycle for lost content with nothing done in between |
| Crash.CrashSafety | internal/sync/session/cycle.go:59-114 | in every run with crashes, refusals and edits anywhere, the stored ancestor is what the committed cycles add up to, and each of them had executed both lists in full |
| Crash.AncestorChangesOnce | internal/sync/session/state.go:215-245 | the stored ancestor changes only at the rename that ends a cycle, to exactly the newly computed one |
| Crash.FoldIsVouched | internal/sync/session/cycle.go:101-105 | everything the stored ancestor records was found by some committed cycle on both sides |
| Crash.PlanLosesOnlyVouched | internal/sync/session/cycle.go:87-99 | in every reachable state, what the plan of the cycle under way is to overwrite or remove of what its scans found, some committed cycle had found there on both sides |
| Halts.HaltExecutedExactly | internal/sync/session/cycle.go:32-34 | in every run, at every halt, a cycle's own or the runner's, what was executed of the two lists is exactly what the stage the last cycle came to says, so nothing if and only if that stage is idle; a halt for a replaced root or lost content has executed nothing unless it came while fetching, and then the sandbox's whole list and nothing locally |
| Halts.HaltLeaves | internal/sync/session/runner.go:85-98 | where nobody edited since the cycle began, the sandbox is as what was executed there makes it, and the local root and the trash are as they were before the trashing, and from there on as so much of the trashing and of the list makes them |
| Halts.LateHalt | internal/sync/endpoint/endpoint.go:389-391 | from any cycle with content still to fetch, an edit of that file halts the session for a replaced root, the whole list already executed in the sandbox |
| Halts.RefusalDeserves | internal/sync/session/cycle.go:318-331 | an endpoint's refusal at any stage halts for a version gap or a replaced root exactly for the codes that stand for them, and is retried for the others |
| Stops.FailsExactly | internal/sync/session/cycle.go:59-171 | a step fails a cycle, and with which verdict, exactly as written out: a refusal by its code, a break, another root, another session's marker, a side that lost most of what is tracked, no room in the trash |
| Stops.BreaksExactly | internal/sync/session/cycle.go:59-114 | where a cycle can break off for a lost connection or a local failure: anywhere but at the guard and in the local changes |
| Stops.HaltsExactly | internal/sync/session/runner.go:86-178 | in every run a session halts exactly when a dial finds the sandbox terminated, or a cycle that failed is attended to: for a version gap if diagnostics came and no cycle went well since connecting, else for what it failed with, else for the terminated sandbox; then it stays halted |
| Stops.FirstExactly | internal/sync/session/runner.go:136-163 | in every run a cycle is the first of its connection exactly when none was committed since the connection was made |
| Stops.GreetsItsOwn | internal/sync/endpoint/endpoint.go:151-178 | in every run a cycle under way has met a sandbox that was its own or nobody's and made it its own |
| Stops.WorksFromItsScans | internal/sync/session/cycle.go:70-92 | in every run a cycle with lists to execute works from the two scans it made itself, and neither shows most of what is tracked to be lost |
| Stops.StagedStaysGenuine | internal/sync/tree/tree.go:193-230 | wherever cycles are cut short, what is staged on either side stays what its digest names |
| Undisturbed.UndisturbedCycle | internal/sync/session/cycle.go:59-114 | wherever the session rests, a cycle on any scans that pass the guard can go through the step machine to its end, and ends with both lists executed in full, what they remove moved aside, and the ancestor of its plan stored |
| Undisturbed.CycleRefines | internal/sync/session/cycle.go:59-114 | between roots in order the step machine's cycle can do what a session's own cycle is proved to do: both sides reach what the merge asks, removals sheltered, the merge's ancestor stored |
| Crash.TrashSurvivesCrash | internal/sync/session/cycle.go:264-271 | cut short anywhere in the trashing, every path is in place or in the trash, as it was |
| Losses.TakenWasScanned | internal/sync/tree/tree.go:309-368 | whatever one change of a list takes away from a root that has changed, since its scan, only by the list's earlier changes at that path, the scan had found there and the list is not to keep |
| Losses.ApplyTakesExactly | internal/sync/tree/tree.go:309-368 | executing one change takes away exactly what it destroys of what is there now: all at or below a removal, another file or an empty directory or another link at a link, another file at a file whose content is staged, another mode |
| Losses.LocalStepTakesExactly | internal/sync/session/cycle.go:264-273 | in any state, edits or none, a step takes away from the local root exactly what its change destroys of what is there or what its removal moves aside |
| Losses.RemoteStepTakesExactly | internal/sync/tree/tree.go:301-368 | and from the sandbox exactly what its change destroys of what is there |
| Losses.LocalStepLosesOnlyVouched | internal/sync/session/cycle.go:245-273 | in every run, whatever a trashing or changing step takes away from the local root some committed cycle had found at that path on both sides, if no edit since the scan changed that path |
| Losses.RemoteStepLosesOnlyVouched | internal/sync/session/cycle.go:191-226 | and the same of the sandbox |
| Incidents.EditIsOverwritten | internal/sync/tree/tree.go:341-356 | a local edit where the cycle is next to create a file is overwritten by that file, and the trash is as it was |
| Incidents.SandboxEditIsOverwritten | internal/sync/tree/tree.go:341-356 | and so is an edit in the sandbox |
| Incidents.UnvouchedEditIsLost | internal/sync/tree/tree.go:341-356 | a run from the start to a state whose next step destroys content no committed cycle ever found |
| Incidents.UnvouchedSandboxEditIsLost | internal/sync/tree/tree.go:341-356 | the same in the sandbox |
| Incidents.LateHaltIsReached | internal/sync/session/cycle.go:32-34 | a run from the start to a halt for a replaced root with a list already executed in the sandbox |
| Incidents.TerminatedHaltIsReached | internal/sync/session/runner.go:93-100 | a run from the start to a halt for a terminated sandbox with a list executed there |
| Incidents.VersionGapIsReached | internal/sync/session/runner.go:146-163 | a run from the start to a version-gap halt with both lists executed and the ancestor not stored |
| Trash.FreshStampIsOpen | internal/sync/session/cycle.go:305-306 | under a stamp not yet used any path can be trashed |
| Trash.TrashKeepsContent | internal/sync/session/cycle.go:264-316 | trashing a pass's removals moves exactly what they cover, content and all, and keeps everything already in the trash |
| Trash.FailedRenamesShelterNothing | internal/sync/session/cycle.go:310-313 | where renames fail trashing reports success, leaves the root as it was, and puts only directories in the trash |
| Trash.FailedRenameLeaves | internal/sync/session/cycle.go:305-313 | a rename that fails leaves the directory it was to go to, made with those above it, and nothing else |
| Trash.TakenPlace | internal/sync/session/cycle.go:299-316 | trashing a path twice under one stamp: a file takes the place of the one before, which is lost, and an empty directory that of a directory; anything else stays where it is with success reported |
| Undelete.RemovalsReady | internal/sync/session/cycle.go:264-271 | a pass's removals can all be trashed under fresh stamps |
| Undelete.TrashThenRun | internal/sync/session/cycle.go:264-273 | executing after trashing ends exactly as executing without it, outcomes included |
| Undelete.Workspace.RestoreTrash | internal/cmd/sandbox_sync_manage.go:431-468 | the walk passes over stamps outside the age window, copies back file by file where nothing stands, counts what it copied, and leaves the trash as it is |
| Undelete.RestoreBrings | internal/cmd/sandbox_sync_manage.go:437-463 | restoring completes if and only if every trashed file whose place is free and not already taken by an earlier one can have its directories, in the root and among the files restored before it; then it has overwritten nothing and put the first trashed copy at every free place |
| Undelete.RestoreStops | internal/cmd/sandbox_sync_manage.go:437-463 | a restore that stops has put back whole what came before the first file it could not, and added at most directories |
| Undelete.RestoredCount | internal/cmd/sandbox_sync_manage.go:437-469 | however it ends it has counted the files it put back, and changed nothing that was there |
| Undelete.UndeleteRestores | internal/cmd/sandbox_sync_manage.go:418-469 | after a pass, whatever was in the trash and however far back it looks, undelete completes exactly when that holds, and then every removed file whose place is free is back, its own content unless another stamp has a file at or below it |
| Undelete.UndeleteRoundTrip | internal/cmd/sandbox_sync_manage.go:418-469 | within one second, and whatever older trash there is, every removed file whose place is free and that no older trashed file lies at or below comes back with its content |
| Undelete.UndeleteCanFail | internal/cmd/sandbox_sync_manage.go:451-453 | a directory replaced by a file leaves no way back for what was in it |
| Undelete.TwoPassesCanFail | internal/cmd/sandbox_sync_manage.go:437-463 | a file replaced by a directory that is then deleted: restoring stops though nothing in the root is in its way |
| Transport.Conn.Fill | internal/sync/transport/transport.go:88-117 | one message is routed by its tag, nothing of either stream lost or reordered |
| Transport.Conn.Route | internal/sync/transport/transport.go:98-116 | a message's bytes go to the buffer its tag names, and an unknown tag or control frame ends the stream |
| Transport.Conn.Read | internal/sync/transport/transport.go:68-86 | a read yields at least one and at most the asked number of protocol bytes, in order, or how the stream ended, with all diagnostics in |
| Transport.OneMore | internal/sync/transport/transport.go:88-117 | a further message extends the stream it is tagged for and leaves the other alone |
| Transport.StreamsSeparate | internal/sync/transport/transport.go:88-117 | whatever pieces of both streams come interleaved, by their tags 0 and 1, each stream is exactly its own, in order, and an exit frame or a strange tag ends both |
| Wire.HeaderRoundTrip | internal/sync/wire/wire.go:58-61 | four bytes carry any length below 2^32 |
| Wire.HeaderIsBigEndian | internal/sync/wire/wire.go:58-61 | the most significant byte comes first |
| Wire.FrameRoundTrip | internal/sync/wire/wire.go:50-86 | reading a written frame gives it back and leaves what follows |
| Wire.FrameReader.ReadSome | internal/sync/wire/wire.go:40-48 | one buffered read takes bytes off the front, in order |
| Wire.FrameReader.ReadFull | internal/sync/wire/wire.go:69-82 | reads exactly so many bytes however they arrive, or hands back what there was and the transport's own error |
| Wire.FrameReader.ReadFrame | internal/sync/wire/wire.go:69-86 | reads the one frame the stream begins with, or finds it too big, undecodable, cut short or ended, with the transport's own error where that is what ended it |
| Wire.FrameReader.ReadFrames | internal/sync/wire/wire.go:69-86 | reads the frames the stream holds, up to a count, and says why it stopped |
| Wire.FramesRoundTrip | internal/sync/wire/wire.go:50-86 | the stream of any frames reads back as those frames, in order |
| Wire.Receive | internal/sync/transport/transport.go:68-117 | for any split of the bytes into messages, any diagnostics between, any buffer and however the connection closed, exactly the written frames arrive, then that end, and the diagnostics are whole |
| Body.WriteBody | internal/sync/wire/wire.go:99-126 | the writing loop sends what the source gives, chunk by chunk |
| Body.ReadBody | internal/sync/wire/wire.go:128-150 | the reading loop passes chunks on until eof, a foreign frame, or the limit |
| Body.SentExactly | internal/sync/wire/wire.go:99-126 | writing succeeds exactly when the source ends within the limit; then the frames carry exactly its bytes and one eof, and never more than the limit is sent |
| Body.ReceivedBounded | internal/sync/wire/wire.go:128-150 | never more than the limit is passed on, whatever was sent |
| Body.ReceivedExactly | internal/sync/wire/wire.go:128-150 | chunks and an eof are received whole exactly when no prefix of them exceeds the limit |
| Body.BodyRoundTrip | internal/sync/wire/wire.go:99-150 | a body written and read within its limits arrives whole, and what follows the eof is left |
| Body.ReadBodyFrom | internal/sync/wire/wire.go:128-150 | a body is read frame by frame through the buffered reader and the transport, up to its eof, a foreign frame, the limit, or a frame that cannot be read |
| Body.StreamReads | internal/sync/wire/wire.go:128-150 | reading a body off the bytes of its frames gives what receiving the frames gives, and leaves the bytes of the rest |
| Body.Transfer | internal/sync/wire/wire.go:99-150 | a body written within its limit and read within its own over the tagged channel arrives whole, however its bytes were split and whatever diagnostics came between; what follows is left and no diagnostics are lost |
| Protocol.StepAligned | internal/sync/endpoint/endpoint.go:80-405 | every step of either end keeps the two in alignment |
| Protocol.RunAligned | internal/sync/client/client.go:34-167 | so does every run, from connecting on, that sends no request needing a handshake before one |
| Protocol.AlwaysInStep | internal/sync/client/client.go:34-54 | between calls both streams are empty and the endpoint listens; a waiting controller reads the answer to its own request; neither end ever meets a frame it does not expect |
| Protocol.CallsEnd | internal/sync/client/client.go:34-167 | in every run, from what the endpoint did: a put succeeds exactly when the endpoint was ready, kept every byte and found the digest promised, ends with the wrong digest exactly when it found another, and with an error exactly when it gave up, whichever with all of the source taken within the declared size; any other call succeeds exactly when it was served; a connection is given up only for a body that outgrew its size or broke |
| Protocol.ReadyExactly | internal/sync/endpoint/endpoint.go:112-178 | the endpoint is ready exactly when it has served a handshake that went well |
| Protocol.OneResponseExactly | internal/sync/endpoint/endpoint.go:61-97 | a simple call gets exactly one response, whatever the endpoint makes of it, if and only if the endpoint has had its handshake or this is one |
| Protocol.UnreadyAnswers | internal/sync/endpoint/endpoint.go:105-110 | what an endpoint without a handshake sends for each other call: an error and then its answer too, but that a query for digests ends it after the error |
| Protocol.UnreadyScanMisaligns | internal/sync/endpoint/endpoint.go:105-110 | a scan before the handshake is answered twice, both times with an error, and the second answer is left over for the next request |
| Notify.StepSafe | internal/cmd/threads.go:839-999 | no step of server, stream, goroutine or waiter loses a message |
| Notify.WaitReturnsUnread | internal/cmd/threads.go:850-884 | in every run a wait ends with exactly what was unread when it ended, and never with nothing: each message unread at the start or stored since, and not read elsewhere in between |
| Notify.ReturnedStays | internal/cmd/threads.go:850-890 | and what it has returned stays returned |
| Notify.TakingIsFetched | internal/cmd/threads.go:858-884 | after taking a notification the waiter fetches before it blocks or ends |
| Notify.BlocksHavingDrained | internal/cmd/threads.go:850-872 | it blocks only after a fetch and then a drain that found the channel empty |
| Notify.TakenInOrder | internal/cmd/threads.go:850-999 | in every run the waiter takes exactly the notifications about its own threads, in the order they were sent, none lost, doubled or of anyone else's; the others are on their way, and one is held back only while the channel of thirty-two is full |
| Notify.FetchesForCause | internal/cmd/threads.go:850-884 | it fetches once, and after that no more often than it has taken notifications |
| Notify.NoLostWakeup | internal/cmd/threads.go:839-935 | while a waiter is blocked, every unread message has its own notification on its way: to be sent, in the stream, in hand or in the channel |
| Notify.StuckMeansOver | internal/cmd/threads.go:850-890 | when nothing more can happen the wait is over or there is nothing to wait for |
| Notify.MaximalRunDelivers | internal/cmd/threads.go:839-999 | left to itself with a message unread, the wait ends after boundedly many steps, in any order, and returns exactly the messages that were unread |
| Runner.BackoffDoubles | internal/sync/session/runner.go:195-206 | doubling and capping gives min(2^(n-1), 60) seconds at the n-th wait in a row |
| Runner.FirstFailureWaitsDoubled | internal/sync/session/runner.go:123-133 | after a connection that broke, the wait before the next dial is under a second, and the wait after that dial has failed is between one and two |
| Runner.FirstFailureWaits | internal/sync/session/runner.go:195-206 | with nothing connected before, the wait after the first failed dial is under a second |
| Runner.SessionRunner.SetStatus | internal/sync/session/runner.go:187-191 | status and note are stored together; a halt is the last thing recorded |
| Runner.SessionRunner.NextBackoff | internal/sync/session/runner.go:195-206 | the backoff lies between one and sixty seconds and is the one the waits in a row call for; the delay is half of it and the random draw, and lies in [backoff/2, backoff) whatever is drawn |
| Runner.SessionRunner.AttachAndSync | internal/sync/session/runner.go:122-178 | a connection ends at its first cycle that does not go well; if that is its very first and the endpoint has written anything, the end is a version gap whatever the cycle failed with |
| Runner.SessionRunner.CycleOn | internal/sync/session/runner.go:136-177 | the cycling loop ends with the first cycle that does not go well, as that cycle and the diagnostics have it |
| Runner.SessionRunner.Settle | internal/sync/session/runner.go:86-117 | a broken connection halts for a halt or a terminated sandbox; it pauses, with the sandbox's own note, one poll of half a minute and no backoff, exactly for a stopped or hibernated one; and otherwise records exactly one wait, with status and note left |
| Runner.SessionRunner.Turn | internal/sync/session/runner.go:67-119 | one turn records exactly what its dial, its cycles and the sandbox's state call for |
| Runner.SessionRunner.Pause | internal/sync/session/runner.go:101-112 | a pause marks the session, polls once and resets the backoff |
| Runner.SessionRunner.WaitBeforeDial | internal/sync/session/runner.go:113-117 | a wait is recorded once and lengthens the streak by one |
| Runner.SessionRunner.Run | internal/sync/session/runner.go:67-119 | over whole runs, everything that is recorded and in what order: the dials, cycles, marks, pauses and waits its turns call for, up to the lengths of the waits; every wait keeps to its backoff, no dial follows another without a wait or poll between, nothing follows a halt, and after so many failed dials the waits in a row are so many |
| Runner.PollsAndWaits | internal/sync/session/runner.go:86-117 | a run polls once for each turn that broke with the sandbox stopped or hibernated, and waits once for each other turn that broke and did not halt |
| Runner.BrokenTurnEnds | internal/sync/session/runner.go:93-100 | a turn that broke halts exactly when the sandbox is terminated, and then for that |
| Runner.PausesAreTold | internal/sync/session/runner.go:101-112 | the note of a pause tells a stopped sandbox from a hibernated one |
| Runner.ReasonsDiffer | internal/sync/session/cycle.go:36-45 | each halt reason has its own word |
| Runner.StoredHaltCounts | internal/sync/session/runner.go:86-91 | when the guard halts a cycle, the stored note gives back tracked minus present, which is more than nothing, if and only if a cycle had gone well on that connection or the endpoint had written nothing; otherwise the note is of a version gap and gives nothing |
| Runner.StoredNoteCounts | internal/sync/session/runner.go:86-91 | the note stored for a content-loss halt gives back tracked minus present |
| Runner.GuardHaltIsMisread | internal/sync/session/runner.go:146-163 | a guard halt in a connection's first cycle, with anything on the diagnostic stream, is stored as a version gap that counts no pending deletions |
| Decimal.ValueOfPrint | internal/sync/session/cycle.go:159 | printed numbers read back as themselves |
| HaltNote.NoteRoundTrip | internal/cmd/sandbox_sync_manage.go:537-546 | for every halt of the guard on either side, parsing the stored note gives exactly tracked minus present |
| HaltNote.SignedScans | internal/cmd/sandbox_sync_manage.go:537-546 | one sign may come before a number, and a number too great for a machine integer is none |
| HaltNote.SpacedScans | internal/cmd/sandbox_sync_manage.go:537-546 | and spaces may |
| HaltNote.SpaceIsNeeded | internal/cmd/sandbox_sync_manage.go:537-546 | where the wording has a space there must be one |
| HaltNote.SpacesMatch | internal/cmd/sandbox_sync_manage.go:537-546 | and any more that follow it are passed over |
| HaltNote.WordsNeeded | internal/cmd/sandbox_sync_manage.go:537-546 | a note that gives both numbers but not what they count counts nothing |
| HaltNote.OtherNotesCountNothing | internal/cmd/sandbox_sync_manage.go:537-546 | a note that does not begin as a content-loss note counts nothing, whatever it says |
| Store.OverlapsExactly | internal/sync/session/state.go:265-273 | for all absolute paths, clean or not, roots overlap exactly when their subtrees share a path and not exactly one is the filesystem's root |
| Store.DotsMean | internal/sync/session/state.go:266-267 | in a cleaned path empty and "." components are nothing, ".." takes away the name before it, and at the filesystem's root nothing |
| Store.RenderRoundTrip | internal/sync/session/state.go:266-267 | a clean path names the directory it is written from, and its base is its last name |
| Store.NameFor | internal/sync/session/state.go:249-260 | the suffix search ends for any taken set, with the first free label |
| Store.SessionStore.Remove | internal/sync/session/state.go:179-181 | exactly the session of that id goes |
| Store.SessionStore.CheckLocalRoot | internal/cmd/sandbox_sync_run.go:99-141 | a root is refused exactly at the first live session in its way; stale ones before it, and no others, are removed |
| Store.SessionStore.Create | internal/cmd/sandbox_sync_run.go:143-182 | a session is created exactly when nothing live is in the way, under the first free label for its name, and roots stay apart and names unique |
| Store.RootsShareNothing | internal/cmd/sandbox_sync_run.go:92-98 | no two sessions of a store write one directory unless one is at the filesystem's root |

## Left out

- Cycle.Session.Run: models one cycle without edits or lost connections during it; those are the step machine of
  `Crash`, whose program steps are cut finer. What each side did at a conflict is not put into words, and the time of
  the last sync is not kept.
- Repeats.RestExactly: is about files the ancestor does not have as they are to be; with such files cycles come to rest
  no later (`Repeats.CyclesComeToRest`), and may do so sooner by removing some of them (`Repeats.LateComesNext`).
- Crash.CrashSafety: a request the endpoint has received is executed to its end even if the controller dies or the
  connection is lost; such changes are covered as edits of the sandbox, not as the cycle's own.
- Halts.HaltExecutedExactly: counts, for a transition cut by a lost connection, what the endpoint had executed by then.
- Protocol.AlwaysInStep: is about connections after a successful handshake.
- HaltNote.NoteRoundTrip: is about counts that fit a 64-bit integer, as the program's own counts do.
- Real filesystems: permissions, directory modes, full disks, case folding, links followed by the operating system
  while walking to a path, device numbers and inode reuse. What a rename across devices does is kept.
- The scan cache, scan problems, unsupported file kinds on disk, and files changing while they are hashed.
- Digests that are not file names, and the empty digest.
- The iteration order of Go maps: names are taken in sorted order wherever the result does not depend on it.
- The unsynchronizable and problematic kinds of the merge core, and its one-way and two-way-resolved modes.
- The same path twice in one scan with different kinds, for which leftover children of the first would show.
- SHA-256, the message encoding, JSON and the ancestor envelope: a hash, a lawful codec, and stored values.
- The negotiation of protocol versions, and confinement of the root in a real container.
- Context timeouts, stream failures and reconnects in the notification wait; the conversation commands around it.
- Undelete.Workspace.RestoreTrash: takes a link at a file's place as something that stands there; the program follows
  it, and where it leads nowhere writes the file through it, to wherever it points.
- Notify.NoLostWakeup: takes subscribing and the server's registering of it as one step; a server that registered only
  after it had answered could lose a message sent in between.
- How a stamp's age is told: undelete's window is any set of stamps. Links in the trash are read through an arbitrary
  function.
- The names of temporary files: a temporary name is taken to be new.
- Sessions created by two processes at once, and sessions whose removal fails on disk.
- `sync resolve`, `sync reset`, the copy command's transfer, the gateway commands, terminals and login.
