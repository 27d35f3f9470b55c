# Verified model of ocis-cli's synchronisation and transfer core

A Dafny 4.11 model of the parts of `ocis-cli` that must not lose data, with proofs
of what they promise.

**The sync planner.** Local tree, remote tree and saved baseline are maps from
paths to entries. `Bidirectional` models the three-way decision table, the
protection of changed subtrees and the rename detection: the methods loop over
an array of actions and rewrite it in place, and each is proved equal to a
specification function. `OneWay` models the push/pull planner, `Filters` and
`FilterShape` the globs, `Actions` the plan order. `Decisions` and `MirrorDecisions`
say in terms of the trees, the baseline and the options alone what the two planners
decide at each path, which inputs give a conflict-free plan, what protection and
rename detection make of the decisions, and what a plan may overwrite. `Executor` defines what
applying a plan does, and when a step is safe: its recorded preconditions still
hold, nothing is written under a missing directory, no directory with content is
removed. `Sweeping` is the run as the source does it: before a step it looks the
step's entries up again and compares them with the recorded ones by `Equal`, and it
removes directories with all they hold. It runs on the whole trees, of which the
filters may have shown the planner less, and relates the two executors. On these
stand the theorems about whole plans: `Reconciliation` (executable order,
convergence, no lost change, shape), `Renames`, `Symmetry`, `Quiescence` and
`Mirror` on the trees the planner sees; `EndToEnd`, `MirrorRun` and `Verification`
(the comparison after a run) on the whole trees. `Instances`, `Unselected` and
`ExcludedMatch` have small runs that meet or miss the conditions.

**Crash-safe transfers.** `Download` (the `.part` file and its validator against a
server whose entity changes; RFC 9110 sections 13.1.5, 14.4 and 15.3.7), `Tus`
(tus 1.0.0 resumption with saved sessions) and `Credentials` (the split keyring
store). Each keeps a log of the states it passes through, and any operation may
fail; a promise about the log is a promise about a stop between any two
operations, and the `RunSessions` and `RunUploads` methods chain any number of
interrupted invocations.

**Self-contained loops.** `WorkerPool` (all interleavings of the transfer
workers), `Walk` and `WalkTree` (bounded tree walk and disk usage), `EventStream` (the
server-sent-events decoder), `Retry` and `HttpApi` (delays and the retry loop).

Conventions:

- A path is a slash-separated string, the root is empty. A *well-formed* pair of
  trees consists of two scanned trees in which every path but the root lies in a
  directory of the same tree.
- Entries carry a `content` that the planner never looks at. `Trustworthy` says
  that entries which compare equal have equal content, and that the baseline
  pairs equal content; only the statements about content require it.
- Glob matching, glob syntax and the case-folded identity of a path are the
  function-valued fields of `Filters.Host`. `FilterShape.SlashNeedsText` (a pattern
  with a slash does not match the empty string) is the only assumption, and is
  stated where it is used.
- int64 limits, saturation and wrap-around are written out where the source's
  result depends on them: timestamp differences, `Retry-After`, back-off,
  `strconv.ParseInt`.

## Where the code does less than one would expect

Each is proved for a concrete input or a whole family of inputs, together with
the exact condition under which the code does meet the property.

1. *Timestamps more than 2^63 ns apart* (`Entries.DistantTimestampsCompareEqual`).
   `Time.Sub` saturates and negating the saturated value wraps, so a year-1 time
   equals any later one from the left, but not from the right. `Equal` is symmetric
   exactly otherwise (`Entries.EqualSymmetry`), and so is the planner, path by path
   (`Symmetry.PathSymmetry`) and for whole conflict-free plans
   (`Symmetry.PlanSymmetryExactly`).
2. *A rename out of a deleted directory* (`Renames.RenamedTreesStop`). Deletions
   are ordered before moves, so renaming the last file out of a directory and
   removing the directory gives a conflict-free plan that cannot be carried out. A
   safe run stops before the directory is removed, and does so in no other case
   (`Reconciliation.ExecutableOrder`); the executor removes it with the file and
   stops at the move (`EndToEnd.MisorderedRunLosesFile`).
   `EndToEnd.RunsThroughExactly` has the exact condition for the executor: this one,
   together with points 9 and 10, and on filtered trees point 6
   (`EndToEnd.FilteredRunExactly`).
3. *A conflict after a successful run* (`Quiescence.ConvergedIsNotQuiet`). The
   verification after a run accepts files of equal size; the next plan wants
   comparable fingerprints. `Quiescence.QuietAfterRun` gives the exact condition.
4. *A filter that leaves nothing of the source* (`FilterShape.UnmatchedIncludesDeleteRoot`).
   With deletion enabled a one-way plan then deletes the destination root, and
   does so before its contents: `Mirror.MirrorRuns` is an equivalence with exactly
   this exception. The executor deletes the root with everything in it and then
   fails at the next deletion (`MirrorRun.UnsafeRootIsLost`).
5. *A slash-free exclude that matches "."*, such as `?` or `.*`
   (`FilterShape.DotPatternExcludesEverything`). It excludes every path of
   every tree; `FilterShape.ExcludesEverythingExactly` says that nothing else does.
6. *Paths that the filters hide on one side* (`Unselected.UnselectedDirectoryStops`).
   Includes select a directory for the matching files below it, so that one side may
   show a directory that the other holds but hides. A conflict-free bidirectional
   plan that acts there finds an entry it takes for new, and stops: for instance
   after the last included file of a directory was removed on one side.
   `EndToEnd.FilteredRunExactly` is the exact condition on the whole trees; without
   includes nothing is hidden in this way (`EndToEnd.ExcludesHideNothing`). A one-way run does not look at the source: with
   deletion it removes such a directory at the destination, although the source
   has it, with files that were never synchronised (`Unselected.UnselectedFileIsRemoved`).
   What both sides hide is removed along with a directory above it, in runs of
   either kind (`Instances.ExcludedFileIsRemoved`); `EndToEnd.LeftOutSurvives` and
   `MirrorRun.LeftOutSurvives` say exactly which of it survives.
7. *A complete part file* (`Download.ResumeSucceedsExactly`). A resumed run asks for
   what follows the part. Against a server that grants continuations it succeeds
   exactly when part of the entity is missing: when nothing is, every answer to the
   request is a refusal or a stretch that starts elsewhere, and each run fails and
   leaves everything as it is, whatever the number of retries.
8. *Negative sizes in the worker pool* (`WorkerPool.CompletedBytesAreTheTotal`).
   They lower the announced total but are reported as nothing, so the completed
   bytes reach the total exactly when no size is negative.
9. *A directory replaced by a file* (`Instances.FileForDirectoryStops`). The
   deletions of what the directory held are passed on after looking up their paths
   on the side that now has the file. On Unix that lookup fails with ENOTDIR, which is
   not taken for absence, and the run stops. The side on which such lookups
   fail, if any, is a parameter of the run; `NothingInTheWay` is the condition in
   `EndToEnd.RunsThroughExactly`.
10. *A transferred file without checksum, ETag and modification time*
    (`Instances.UnfingerprintedStops`). It does not equal itself, so that its transfer
    is refused as changed since planning: the condition `TransfersFingerprinted` in `EndToEnd.RunsThroughExactly`. Nothing
    else a bidirectional plan records can be of that kind; in one-way runs the
    destination entries can (`MirrorRun.FilteredMirrorExactly`).
11. *A directory selected by an excluded file only* (`ExcludedMatch.VerificationFails`).
    Includes are matched before excludes, so the directory is created on the other
    side, where nothing selects it, and the run fails its own verification.
    `Verification.VerifiedExactly` is the exact condition for the verification after
    a run; its part about includes always holds when only includes or only excludes
    are given (`Verification.OneKindSelectsAlike`).

Documentation and code differ in one point that matters here: the repository's own
`README.md` (lines 856 to 860) presents unique renames as applied by a move, without
the exception in point 2.

## Model

| member | source | states |
|---|---|---|
| Entries.ToleranceMeaning | internal/sync/model.go:341-358 | which pairs of instants count as equivalent: two seconds either way, or an earlier left instant at least 2^63 ns away |
| Entries.DistantTimestampsCompareEqual | internal/sync/model.go:341-358 | the year-1 zero time equals a time in 2026 from the left and not from the right |
| Entries.EqualSymmetry | internal/sync/model.go:302-319 | comparison is symmetric exactly when no saturated timestamp difference decides it |
| Entries.EqualReflexivity | internal/sync/model.go:302-319 | an entry equals itself exactly when it is present and a directory or fingerprinted |
| Entries.EqualDecision | internal/sync/model.go:302-319 | which fingerprint decides a comparison: the type for directories; for files checksums whatever their case, else ETags, else size and time; an absent entry equals nothing |
| Common.FoldedCharacters | internal/sync/model.go:302-319 | checksums are compared without regard to the case of letters and to nothing else |
| Entries.ConvergedDecision | internal/sync/model.go:321-339 | the looser comparison differs exactly where only the times do |
| Entries.UnreadableTimes | internal/sync/model.go:341-358 | a missing time is equivalent to nothing, an unreadable one only to the same text |
| Actions.SortedIsSort | internal/sync/model.go:504-541 | plan order is a permutation with no pair out of order |
| Actions.OrderMeans | internal/sync/model.go:504-541 | conflicts first, then deletions deepest first, then directories shallowest first, then files, then skips; paths decide at equal depth |
| Actions.SortActions | internal/sync/model.go:504-541 | the in-place sort yields that order |
| Actions.Tally | internal/sync/bidirectional.go:67-80 | the plan's totals are the numbers of its actions of each kind |
| Actions.CountIsNumber | internal/sync/bidirectional.go:67-80 | a total is the size of the set of positions with an action of its kind |
| Filters.IsExcluded | internal/sync/model.go:447-456 | the upward loop answers whether any path on the chain to the top matches |
| Filters.SelectChain | internal/sync/model.go:378-419 | a matched path selects itself and the ancestors that exist |
| Filters.SelectPaths | internal/sync/model.go:378-419 | selects exactly the paths the includes ask for, their ancestors and the root |
| Filters.Filter | internal/sync/model.go:378-419 | fails exactly on an invalid pattern; otherwise keeps exactly the selected, unexcluded paths, whatever the map order |
| Filters.MatchesExactly | internal/sync/model.go:458-470 | a pattern without a slash matches a name in any directory, one with a slash the whole path |
| Filters.ChainExactly | internal/sync/model.go:447-456 | the upward chain of a path is the path, every directory above it and "." |
| Filters.ExcludedExactly | internal/sync/model.go:447-456 | excluded are the matching paths, all below them, and everything when "." matches |
| Filters.SelectedExactly | internal/sync/model.go:378-419 | includes select the paths they match, the directories above these and the root |
| FilterShape.FilterKeepsShape | internal/sync/model.go:378-456 | a parent-closed tree stays parent-closed under any includes and excludes |
| FilterShape.FilterIgnoresOrder | internal/sync/model.go:378-456 | order and repetition of the patterns do not change the result |
| FilterShape.SortedUniqueStrings | internal/sync/model.go:433-445 | the result is strictly sorted with the same elements |
| FilterShape.Compact | internal/sync/model.go:433-445 | the in-place loop leaves the distinct elements, in order, at the front |
| FilterShape.NormalizePatterns | internal/sync/model.go:421-431 | fails exactly on an invalid pattern; the canonical lists filter every tree as the given ones do |
| FilterShape.DotPatternExcludesEverything | internal/sync/model.go:447-470 | a slash-free exclude matching "." empties every tree |
| FilterShape.ExcludesEverythingExactly | internal/sync/model.go:447-470 | excludes leave nothing of a tree with a root exactly when a slash-free one matches "." |
| FilterShape.UnmatchedIncludesDeleteRoot | internal/sync/model.go:125-183 | includes that match no source path lead a deleting plan to delete the destination root |
| Planning.PlanAtIsSound | internal/sync/bidirectional.go:278-443 | what each kind of planned action says about the two entries, their baseline and the side that changed |
| Decisions.DecisionExactly | internal/sync/bidirectional.go:278-443 | the table, with and without a record: a skip exactly when the sides agree, a conflict exactly when they differ and both or neither have changed, and otherwise the Transfer, CreateDirectory or Delete that passes the one change on, with its entries |
| Decisions.ConflictFreeExactly | internal/sync/bidirectional.go:26-258 | a plan is free of conflicts exactly when every path can be decided and no directory is removed or replaced over a change below it |
| Bidirectional.SubtreeHasChanged | internal/sync/bidirectional.go:229-258 | true exactly when something strictly below the directory no longer matches the baseline |
| Bidirectional.MarkEndangered | internal/sync/bidirectional.go:161-199 | turns exactly the destructive directory actions over changed subtrees into conflicts and lists them |
| Bidirectional.BlockBelow | internal/sync/bidirectional.go:200-227 | turns exactly the actions below a listed path, conflicts excepted, into skips |
| Bidirectional.ProtectChangedSubtrees | internal/sync/bidirectional.go:161-227 | the two passes in place are the protected plan |
| Decisions.ProtectedExactly | internal/sync/bidirectional.go:161-258 | in the finished plan a directory whose removal or replacement would lose a change below it is a conflict, everything below it is a skip or conflict without a target, and skips and conflicts have no other reasons than these, agreement, undecidable paths and renames |
| Decisions.FinishedExactly | internal/sync/bidirectional.go:26-258 | every step of the finished plan is the one the table decides for its path, or what protection or a rename makes of that |
| Decisions.OneStepEach | internal/sync/bidirectional.go:39-58 | the finished plan has one step for each path of the trees or the baseline |
| Planning.ShieldedCases | internal/sync/bidirectional.go:161-227 | after protection an action is the planned one and harmless, a conflict, or a skip |
| Planning.ConflictFreeIsUnprotected | internal/sync/bidirectional.go:161-227 | in a conflict-free plan protection changed nothing and nothing was endangered |
| Bidirectional.CollectCandidates | internal/sync/bidirectional.go:83-146 | lists exactly the file deletions with a recorded fingerprint and the file additions of one side |
| Bidirectional.MatchingRemovals | internal/sync/bidirectional.go:83-146 | lists exactly the deletions whose fingerprint the addition equals |
| Bidirectional.FingerprintMatchesOtherAddition | internal/sync/bidirectional.go:148-159 | false exactly when one addition has the fingerprint |
| Bidirectional.FindOrigin | internal/sync/bidirectional.go:83-146 | finds the deletion an addition is a rename of, exactly when there is a unique one and the target path is free |
| Bidirectional.DetectFileMoves | internal/sync/bidirectional.go:83-146 | the two in-place passes rewrite exactly the unique pairs |
| Planning.PairIsRewritten | internal/sync/bidirectional.go:83-146 | a unique pair becomes a move and a skip, even after the other side's pass |
| Planning.UnpairedIsKept | internal/sync/bidirectional.go:83-146 | every other action is left as it was |
| Planning.RenameFacts | internal/sync/bidirectional.go:83-159 | a rename pairs one planned addition with one planned deletion of equal fingerprint, one to one |
| Bidirectional.PlanList | internal/sync/bidirectional.go:39-58 | one planned action for each path, in the order of the list |
| Bidirectional.BuildBidirectional | internal/sync/bidirectional.go:26-81 | fails exactly on invalid patterns or ambiguous path identities; otherwise the ordered plan of the filtered trees with its totals |
| Executor.RunSucceedsExactly | internal/app/sync/service.go:423-681 | with the safety conditions of `Ready` at every step, a coherent plan in plan order runs to its intended outcome exactly when no move needs a directory removed before it; otherwise it stops before that removal |
| Executor.CoherentWhenSorted | internal/sync/model.go:504-541 | sorting keeps a plan coherent |
| Executor.StepDecides | internal/app/sync/service.go:457-555 | in the intended outcome a step determines its path on its target side and leaves the other side's alone |
| Executor.SkipDecides | internal/app/sync/service.go:457-555 | in the intended outcome a skipped path keeps what it had unless a move takes it away |
| Sweeping.LeftByRun | internal/app/sync/service.go:457-555 | after a run that gets through, a path that no step is about is gone exactly when it lay below a directory the run removed |
| Sweeping.AgreesAfterRun | internal/app/sync/service.go:423-681 | wherever the trees agree with those a safe run was made for, a recursive run that gets through leaves what the safe run leaves |
| Sweeping.StepPassesExactly | internal/app/sync/service.go:632-769 | when its turn comes, a step of a coherent plan passes its checks exactly when nothing it looks up was hidden from the planner, its entries compare with themselves, no file stands above the looked-up path of a deletion, and its file has not gone with an earlier removal |
| Sweeping.SweepingRunExactly | internal/app/sync/service.go:423-769 | on any trees that hold at least those it was made for, a coherent plan runs through, with every effect, exactly when no move needs a directory removed before it and each step meets its conditions; otherwise the run stops |
| Sweeping.StopsWithFileGone | internal/app/sync/service.go:632-681 | where only the order is wrong, the run comes to a move whose file an earlier removal has taken along |
| Reconciliation.PlanIsCoherent | internal/sync/bidirectional.go:26-81 | the steps of a conflict-free plan fit the trees and each other: parents present or planned, subtrees of removed directories cleared, moved files consumed once |
| Reconciliation.ExecutableOrder | internal/sync/model.go:504-541 | a conflict-free plan runs in plan order, every step safe, exactly when no file is moved out of a directory an earlier step removes; otherwise the run stops |
| Reconciliation.SameShape | internal/sync/bidirectional.go:278-443 | after the run both sides have the same paths with the same types, whatever the fingerprints are worth |
| Reconciliation.Convergence | internal/sync/bidirectional.go:26-159 | after a conflict-free plan, moves included, every path holds equal content on both sides or is absent on both |
| Reconciliation.ShapePreserved | internal/sync/bidirectional.go:161-227 | both trees stay parent-closed, whatever the baseline looks like |
| Reconciliation.NoLostChange | internal/sync/bidirectional.go:300-345 | a file added or changed on one side since the baseline is on both sides afterwards, with its content |
| Reconciliation.OnlyUnchangedIsDestroyed | internal/sync/bidirectional.go:161-345 | in every plan, with conflicts or without, what a step deletes, overwrites or moves away still matches the baseline of its side, as does everything below a removed directory |
| Renames.MovesAreTheUniquePairs | internal/sync/bidirectional.go:83-159 | the finished plan moves one path to another exactly when they are each other's only match on that side |
| Decisions.MovesExactly | internal/sync/bidirectional.go:83-159 | in terms of trees and baseline: a move is planned exactly when one side has a new file that equals what that same side last had at a path it no longer has, where the other side still has its unchanged file, and neither is like any other |
| Renames.RenameMatching | internal/sync/bidirectional.go:83-159 | on each side moves are a one-to-one matching, a consumed deletion is one skip, no path is both source and destination, nothing existing is overwritten |
| Renames.RenameOutOfDeletedDirectoryStops | internal/sync/model.go:524-541 | a conflict-free plan that deletes a directory and moves a file out of it always stops |
| Renames.RenamedTreesStop | internal/sync/model.go:524-541 | such a plan exists: two small trees and a baseline |
| Symmetry.PathSymmetry | internal/sync/bidirectional.go:278-443 | one path is planned symmetrically exactly when no saturated timestamp difference decides whether its entries match |
| Symmetry.PlanSymmetry | internal/sync/bidirectional.go:26-159 | exchanging the sides gives the same plan, step for step in the same order, with the targets exchanged |
| Symmetry.PlanSymmetryExactly | internal/sync/bidirectional.go:26-159 | a conflict-free plan is symmetric exactly when no saturated timestamp difference decides a comparison of the two sides |
| Quiescence.NewState | internal/sync/model.go:361-373 | the saved baseline has a record for exactly the paths of either tree, with both entries |
| Quiescence.QuietExactlyWhenMatching | internal/app/sync/bidirectional.go:134-162 | planning again from the saved state gives only skips exactly when the entries of every path match |
| Quiescence.ConvergedIsNotQuiet | internal/sync/model.go:321-339 | two files that the verification accepts and the next plan calls a conflict |
| Quiescence.QuietAfterRun | internal/sync/model.go:361-373 | after a conflict-free run the next plan is only skips exactly when transferred files carry a fingerprint and renamed ones compare across the sides |
| OneWay.Build | internal/sync/model.go:125-183 | fails exactly on an unknown direction or invalid patterns; otherwise the ordered plan of the filtered trees with its totals |
| OneWay.PlanList | internal/sync/model.go:144-165 | one planned action for each path, in the order of the list |
| OneWay.PlanAtIsSound | internal/sync/model.go:185-299 | what each kind of planned action other than a conflict says about the two entries and the options |
| MirrorDecisions.DecisionExactly | internal/sync/model.go:185-299 | the table with both trees, the baseline and the options: when exactly a path is skipped, deleted, created, transferred, replaced or left to the user, with its entries |
| MirrorDecisions.FinishedExactly | internal/sync/model.go:125-183 | the finished plan is ordered and has for each path the one step the table decides |
| MirrorDecisions.ConflictFreeExactly | internal/sync/model.go:185-299 | a one-way plan is free of conflicts exactly when no path is left to the user |
| MirrorDecisions.OnlyUnchangedIsOverwritten | internal/sync/model.go:185-299 | without overwriting, no step touches what has changed at the destination since the last run, brings back what was removed there, or replaces what was never synchronised |
| MirrorDecisions.ChangedDestinationSurvives | internal/sync/model.go:185-299 | so what has changed at the destination is still there after a conflict-free run |
| OneWay.MirrorMembers | internal/sync/model.go:125-183 | the finished plan is ordered and has exactly one step for each path of either tree |
| Mirror.MirrorRuns | internal/sync/model.go:185-299 | every step of a conflict-free one-way plan is safe in plan order exactly when the destination root is not deleted before its contents |
| Mirror.MirrorEqualsSource | internal/sync/model.go:185-299 | afterwards the destination holds the source's content at every source path, and of its own paths none or all, as the delete option says |
| Mirror.MirrorKeepsShape | internal/sync/model.go:185-299 | the destination stays parent-closed |
| Mirror.MirrorIsQuiet | internal/sync/model.go:185-299 | replanning with any baseline gives only skips exactly when every transferred file carries a fingerprint |
| EndToEnd.FilteredRunKeepsShape | internal/sync/bidirectional.go:26-81 | filtered trees are well-formed, and a conflict-free run leaves them parent-closed |
| EndToEnd.FilteredRunExactly | internal/app/sync/bidirectional.go:180-283 | a conflict-free plan for the filtered trees, run on the whole trees, gets through exactly when no move needs a directory removed before it, transferred files carry a fingerprint, no step is about a path the filters hide on either side, and no deletion is looked up below a file; otherwise the run stops |
| EndToEnd.ExcludesHideNothing | internal/sync/model.go:378-456 | without includes no step of a conflict-free plan is about a hidden path |
| EndToEnd.RunsThroughExactly | internal/app/sync/bidirectional.go:180-283 | on the trees it was made for, a conflict-free plan is carried out with the intended outcome exactly when the other three conditions hold; otherwise the run stops |
| EndToEnd.MisorderedRunLosesFile | internal/app/sync/bidirectional.go:180-283 | when only the order is wrong, the run stops at a move whose file has gone with its directory |
| EndToEnd.ReplacedDirectoryStops | internal/app/sync/service.go:745-769 | where lookups below a file fail, a plan that replaces a directory by a file and deletes something that was in it always stops |
| EndToEnd.FilteredRunAgrees | internal/app/sync/bidirectional.go:180-245 | a run that gets through on the whole trees leaves every path the filters showed as it was what the plan for the filtered trees intends |
| EndToEnd.LeftOutSurvives | internal/app/sync/service.go:457-555 | what the filters left out on both sides survives a run that gets through, with its entry, exactly when no step removes or replaces a directory above it |
| MirrorRun.FilteredMirrorExactly | internal/app/sync/service.go:423-555 | a conflict-free one-way plan that does not remove the destination root under its contents gets through on the whole trees exactly when every step but a skip finds its path at the destination as the filters showed it, with an entry that can be compared; otherwise the run stops |
| MirrorRun.FilteredMirrorAgrees | internal/app/sync/service.go:423-555 | such a run leaves every destination path the filters showed as it was what the plan intends |
| MirrorRun.LeftOutSurvives | internal/app/sync/service.go:423-555 | what the filters left out of both trees stays at the destination of a one-way run that gets through exactly when it lies in no removed and no replaced directory |
| MirrorRun.UnsafeRootIsLost | internal/app/sync/service.go:423-555 | where the plan removes the root under its contents the run never gets through; once the root is deleted nothing at all is left at the destination, and it is reached exactly when everything below the top level can be compared |
| Verification.FirstDifference | internal/app/sync/bidirectional.go:285-315 | the loop finds the least differing path; the empty answer stands for no difference and for one at the root |
| Verification.ConvergedExactly | internal/app/sync/bidirectional.go:285-315 | a path of the reconciled trees converges exactly when the move that wrote it, if any, pairs converging files |
| Verification.FilteredAfterwards | internal/app/sync/bidirectional.go:126-145 | filtered again after a run, the whole trees show what the plan intends at exactly the paths the includes still select |
| Verification.VerifiedExactly | internal/app/sync/bidirectional.go:126-162 | the verification after a run passes exactly when the includes select every path alike on both sides and moved files converge |
| Verification.OneKindSelectsAlike | internal/app/sync/bidirectional.go:126-162 | with includes alone or excludes alone every path is selected alike on both sides |
| Verification.NextRunIsQuiet | internal/app/sync/bidirectional.go:126-175 | without includes the trees shown after a run are the reconciled ones, and planning them again gives only skips exactly when the two copies of every moved file can be compared |
| Instances.RemovalIsPassedOn | internal/sync/bidirectional.go:417-443 | a directory removed on one side is removed on the other: a run that meets every condition of the theorems above |
| Instances.ExcludedFileIsRemoved | internal/app/sync/service.go:457-555 | a conflict-free run that gets through and removes an excluded file |
| Instances.FileForDirectoryStops | internal/app/sync/service.go:745-769 | a conflict-free plan that replaces a directory by a file stops where lookups below a file fail, and runs through where they do not |
| Instances.UnfingerprintedStops | internal/app/sync/service.go:701-730 | a new remote file without any fingerprint is planned as a transfer that stops the run |
| Unselected.UnselectedDirectoryStops | internal/app/sync/bidirectional.go:202-283 | the last included file of a directory was removed remotely: the plan is free of conflicts and the run stops, because the directory is still there |
| Unselected.UnselectedFileIsRemoved | internal/app/sync/service.go:423-455 | on the same trees a one-way run with deletion gets through and removes the directory, with a file that was never synchronised, although the source has it |
| ExcludedMatch.VerificationFails | internal/app/sync/bidirectional.go:126-162 | a conflict-free run that gets through and fails its verification |
| Download.ContentRangeRoundTrip | internal/webdav/client.go:850-866 | every Content-Range a server may print is read back as its start and size |
| Download.ContentRangeShape | internal/webdav/client.go:850-866 | only headers of that shape are read, with the unit in any case and no negative numbers |
| Common.Trimmed | internal/webdav/client.go:576 | white space around a validator is dropped, and nothing else |
| Download.DiscardPartial | internal/webdav/client.go:588-606 | removes the part and then its label: in every state on the way in which the part is still there, so is its label |
| Download.WritePartValidator | internal/webdav/client.go:562-586 | labels the empty part; safe even when only a prefix of the label is written |
| Download.ReadPartial | internal/webdav/client.go:393-413 | only a labelled part is resumed, an unlabelled one is discarded |
| Download.Continue | internal/webdav/client.go:449-472 | a continuation is appended only at the asked position of the labelled entity; the part stays a prefix of it, however early the answer ends |
| Download.Restart | internal/webdav/client.go:473-525 | the first operation removes the label and nothing follows unless it succeeded; what is received is a prefix of the answered entity, labelled with its validator |
| Download.Attempt | internal/webdav/client.go:392-525 | one request keeps a labelled part a prefix of its entity in every state; without file faults it has exactly the outcome of `Attempted`; an answer that continues nothing changes nothing |
| Download.DownloadWithOptions | internal/webdav/client.go:373-560 | success leaves one complete entity, established by the final size check, and no part; failure leaves the destination alone; an unanswered resumable run changes nothing; without file faults the outcome is `Downloaded` |
| Download.Commit | internal/webdav/client.go:527-560 | only a part that passes the size and ETag checks, and is then a complete entity, becomes the destination; with verification it has the size the server reports and is the entity its ETag names |
| Download.VerifiedIsWhole | internal/webdav/client.go:531-533 | a received part of the announced size is a complete entity |
| Download.ResumeSucceedsExactly | internal/webdav/client.go:392-560 | against a server that grants continuations of the labelled entity, a resumed run puts the entity in place exactly when part of it is missing; a complete part is never finished and left as it is |
| Download.InterruptedIsResumed | internal/webdav/client.go:392-560 | the prefix an interrupted run received stays labelled, and the next run completes it |
| Download.WholeAnswerSucceeds | internal/webdav/client.go:373-560 | whatever part it finds, a run that gets a whole answer within its retries, after nothing worse than unavailability, puts that entity in place and leaves no part |
| Download.BrokenIsContinued | internal/webdav/client.go:392-525 | an answer that breaks off is followed within the run by a request for the rest, which completes the entity |
| Download.ChangedAnswerFails | internal/webdav/client.go:527-544 | with verification a run fails, and leaves the destination alone, when the server reports another size or ETag, or nothing |
| Download.RefusalEnds | internal/webdav/client.go:415-436 | a refusal other than 429 and 5xx ends the run at once and leaves a labelled part alone |
| Download.UnavailableFails | internal/webdav/client.go:392-436 | unavailability throughout the retries ends the run with the destination as it was |
| Download.RunSessions | internal/webdav/client.go:373-602 | over any number of runs, crashes and entity changes a labelled part is a prefix of the entity its label names, and the destination holds its old content or one complete entity |
| Tus.ReadFrom | internal/webdav/tus.go:119-130 | one stream keeps every upload a prefix of its own file and ends knowing the server's offset |
| Tus.SendChunk | internal/webdav/tus.go:119-130 | a chunk accepted at the server's own offset extends the stored prefix, however much of it arrives |
| Tus.TryResume | internal/webdav/tus.go:190-241 | a session is resumed only for the same file, unexpired, at an offset within it, left in place, given up only when it is stale or the server dropped the upload, and the run only upon a fault |
| Tus.CreateAndSave | internal/webdav/tus.go:243-275 | a new upload is saved under the key before its first byte is sent |
| Tus.LoadOrCreate | internal/webdav/tus.go:183-275 | the upload found or created belongs to the file, and the offset is the server's |
| Tus.AttemptStream | internal/webdav/tus.go:119-171 | going on after a failed stream takes a temporary error, a retry left and the session saved under the key, and starts at the server's own offset; stopping has one of these for a reason, or a later fault or a dropped upload |
| Tus.UploadTus | internal/webdav/tus.go:69-181 | success means the whole file is stored and the session removed; at most retries + 1 streams; nothing stored is lost; a usable session is continued; and when nothing fails the upload succeeds |
| Tus.RunUploads | internal/webdav/tus.go:69-302 | over any number of uploads and stops, every upload is a prefix of the file it was created for and every session leads to an upload of its own file |
| Credentials.GetSplit | internal/credentials/store.go:91-111 | collects exactly the stored items, and whether there is any |
| Credentials.Get | internal/credentials/store.go:64-89 | field by field what the stored items say, and nothing else, unless a lookup failed |
| Credentials.WrittenIsRead | internal/credentials/store.go:64-143 | items written for a secret under the marker read back as that secret |
| Credentials.Set | internal/credentials/store.go:113-143 | interrupted or failing anywhere, the profile reads as before, as not found or as the complete new secret; once saved, it has the marker and exactly one item for each field that is not empty |
| Credentials.Delete | internal/credentials/store.go:145-155 | interrupted or failing anywhere, the profile reads as before or as not found; once deleted, nothing is left |
| WorkerPool.Meter.Report | internal/transfer/transfer.go:225-246 | the shared counters follow the pool's state through a report or a completion |
| WorkerPool.StepKeepsValid | internal/transfer/transfer.go:204-291 | every step of every interleaving keeps the pool's invariant |
| WorkerPool.AtMostOnceAndAccounted | internal/transfer/transfer.go:204-291 | in every reachable state each task was started at most once and the byte counter is the sum of the last reports |
| WorkerPool.NeverStuck | internal/transfer/transfer.go:247-291 | before the pool returns, some step other than a report or the caller's cancellation is possible |
| WorkerPool.RunsAreBounded | internal/transfer/transfer.go:247-291 | no run has more than 2n + workers + 3 steps besides reports, so a pool whose tasks end returns |
| WorkerPool.ResultMeaning | internal/transfer/transfer.go:204-291 | no error means every task succeeded once with the counters complete; a task error names a task that failed; the context's error means the caller cancelled and nothing failed |
| WorkerPool.FirstFailureIsReturned | internal/transfer/transfer.go:247-291 | the error returned is that of the task that failed first |
| WorkerPool.ConcurrencyIsBounded | internal/transfer/transfer.go:204-214 | there are as many workers as asked for, at least one and at most one per task, and unfinished tasks are in different hands |
| WorkerPool.EachCanGoOn | internal/transfer/transfer.go:214-291 | in every reachable state each worker that has not left can go on, a running task can report, succeed or fail, and the caller can cancel |
| WorkerPool.CompletedBytesAreTheTotal | internal/transfer/transfer.go:214-246 | completed bytes equal the announced total exactly when no size is negative |
| Walk.ByNameIsStableSort | internal/app/filesystem/walk.go:62-72 | children are permuted into name order, equal names keeping their order |
| Walk.AppendFilesystemWalk | internal/app/filesystem/walk.go:57-114 | appends the cut listing of a directory, fails exactly when it does not fit, notes whether something was cut |
| Walk.WalkFilesystem | internal/app/filesystem/walk.go:24-55 | the walk is the sorted preorder listing cut at the depth, with exact last flags; it fails exactly when that has too many entries |
| Walk.ListingHolds | internal/app/filesystem/walk.go:24-114 | any sum over the cut listing is the sum over the tree to that depth, whatever the order of children |
| WalkTree.PreorderIsListed | internal/app/filesystem/walk.go:57-114 | in the listing below any directory an entry is marked last exactly when no sibling follows, carries the marks of the entries above it, lies below a directory, and siblings come in the order of their names |
| Walk.Measure | internal/app/filesystem/du.go:32-43 | the loop's counters are the sums over the walk |
| Walk.Du | internal/app/filesystem/du.go:24-43 | files, directories and bytes are those the tree holds to the depth; a complete result holds for every greater depth; fails exactly beyond the limit |
| EventStream.Decoder.DispatchEvent | internal/eventstream/client.go:88-107 | a blank line hands over the collected event, if it has data, and starts afresh |
| EventStream.Decoder.ReadField | internal/eventstream/client.go:120-150 | one field changes the collected event as its name says, and fails exactly when the data outgrow the limit |
| EventStream.Decode | internal/eventstream/client.go:77-163 | the events handled are exactly those of the lines consumed, and each way of ending has its reason |
| EventStream.PrefixOfLines | internal/eventstream/client.go:108-150 | decoding a prefix of the lines gives a prefix of the events |
| EventStream.DataWithinLimit | internal/eventstream/client.go:125-135 | the byte count is the length of the joined data, and no event exceeds 4 MiB |
| EventStream.RoundTrip | internal/eventstream/client.go:77-163 | printing any list of printable events and decoding the lines gives the same list |
| EventStream.LineEndsDoNotMatter | internal/eventstream/client.go:108-117 | lines that end in no carriage return are decoded as they are with one or two after any of them |
| EventStream.RoundTripCRLF | internal/eventstream/client.go:77-163 | the round trip with every line ended in CR LF |
| EventStream.SilentLinesDoNotMatter | internal/eventstream/client.go:118-150 | comments and fields of other names can be left out anywhere |
| EventStream.CommentSaysNothing | internal/eventstream/client.go:118-150 | a line that starts with a colon and a field of another name are such lines |
| EventStream.Spellings | internal/eventstream/client.go:120-127 | a field is read alike with and without the space after the colon, and without the colon when it has no value |
| EventStream.FieldMeaning | internal/eventstream/client.go:128-150 | what each field does, and which values are ignored |
| EventStream.BlankLineEndsEvent | internal/eventstream/client.go:88-107 | after a blank line nothing but the delay is left of an event, whether or not it was handed over |
| Retry.AfterNeverOverflows | internal/retry/retry.go:58-100 | any Retry-After value gives a delay between 0 and the largest duration, exactly the seconds named when they fit |
| Retry.SecondsMeaning | internal/retry/retry.go:58-100 | printed seconds are waited exactly while they fit, for the largest duration beyond, and not at all when negative |
| Retry.DateMeaning | internal/retry/retry.go:58-84 | any other value is a date whose remaining time is waited, or asks for nothing |
| Retry.BackoffIsBounded | internal/retry/retry.go:102-114 | the wait is the base doubled per attempt up to four times, capped at the ceiling |
| Retry.Doublings | internal/retry/retry.go:102-114 | one, two, four, eight and then sixteen times the base, capped |
| Retry.DelayIsBounded | internal/retry/retry.go:102-114 | a wait is between 0 and 30 s; a positive server delay is waited exactly or refused |
| Retry.LargerBaseOverflows | internal/retry/retry.go:102-114 | one nanosecond beyond the bound on the base the last doubling wraps |
| HttpApi.Do | internal/httpapi/client.go:76-112 | at most retries + 1 requests, repeated only after a transport error, 429 or 5xx; server delays waited exactly or nothing further sent; the answer returned is the first final one or the last; cancelled only when the caller gave up |
| HttpApi.WaitingIsBounded | internal/httpapi/client.go:76-112 | all waits of a call together are at most retries times 30 s |

## Left out

- Reason texts of actions, error messages, log output and progress rendering: opaque to every property.
- Schema version, direction and binding checks of a saved state, and what persists it: checked before planning starts.
- `keep-both` conflict resolution and its copy actions, and the `copied` total of a plan.
- Glob syntax and matching, Unicode folding and normalisation of paths, SHA-1 and SHA-256, RFC 3339 and HTTP dates: uninterpreted.
- Case-insensitive comparison of checksums and identifiers follows ASCII only.
- Sorting is the function its library promises (`sort.Slice`, `sort.SliceStable`, `sort.Strings`); how it sorts is not modelled.
- Executor.RunSucceedsExactly: an ideal executor over two maps that refuses to remove a directory with content, which the source does not; `Sweeping` has the source's removal. Transfers are atomic here, while `Download` and `Tus` treat their inside. Entries written keep the metadata of their origin, where the server would issue a new ETag and modification time.
- Executor.StepDecides: a deletion drops its own path only; `EndToEnd.RunsThroughExactly` says when that is what the recursive removal does.
- Executor.SkipDecides: as StepDecides.
- Sweeping.SweepingRunExactly: errors of the disk, the network and the server other than those of a lookup, and changes made by others during the run.
- Symmetry.PlanSymmetryExactly: only the sufficient condition of `PlanSymmetry` is given for plans with conflicts, which are not carried out.
- EndToEnd.LeftOutSurvives: nothing is said of a path that the filters leave out on one side only, except that no step of a run that gets through is about it.
- Verification.NextRunIsQuiet: with includes the filters may show less after a run than the planner intended; `Verification.FilteredAfterwards` says what.
- Filters.Filter: the memory shared between Go slices is not modelled.
- Download.DownloadWithOptions: an answer with the whole entity that ends cleanly is taken to be whole, as message framing guarantees; an answer with a part of it is not. Resolution of a directory as destination, `ExpectedETag`, and the separate steps of a file replacement on Windows; a replacement is one atomic rename. A file operation fails without effect, except for the label, which may be cut anywhere.
- Download.RunSessions: writes reach the disk in the order they were issued.
- Tus.ReadFrom: stands for the tusgo library, which is not part of this repository: a PATCH carries the file's bytes from the announced offset on. That no chunk is larger than the server's limit is not stated.
- Tus.UploadTus: the check of the remote size after a finished upload, capability discovery, URL resolution beyond whether it succeeds, and other clients writing to the same upload. Equal source fingerprints (path, size, modification time) are taken to mean equal content, as the source does.
- Credentials.Set: other processes using the same keyring profile.
- WorkerPool.AtMostOnceAndAccounted: sums are not limited to int64, and a task reports only while it runs.
- WorkerPool.NeverStuck: that a task ends is assumed, not proved.
- Walk.WalkFilesystem: errors of the server while listing end the walk and are not modelled; the tree does not change during the walk.
- Walk.Du: byte sums are not limited to int64; the option checks and the output are left out.
- EventStream.Decode: the scanner is modelled by its lines; read errors of the connection are not.
- EventStream.RoundTrip: lines are not limited to 1 MiB here; `Decode` stops at the first longer line.
- HttpApi.Do: closing response bodies, authentication and request construction.
- The other clients (graph, sharing, notifications, search, trash, versions), the command line, configuration, sync jobs and recovery journals: plumbing with single-branch properties.
