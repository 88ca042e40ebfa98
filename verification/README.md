# Proofs about the setup transaction, the wizard and the layout kernel

`agent_artifacts` configures a machine for an artifact by a reviewed setup plan. This project models, in Dafny, the
parts of it that are hard to get right, and proves what they promise.

* **The setup transaction** (`World`, `Runtime`, `Host`). A plan is a sequence of effects: Keychain items, marker-owned
  blocks in text files, values merged into JSON files, directories, Docker pulls and builds, certificate exports,
  verify commands, notices and custom scripts. Each applied effect yields a receipt; refusing or failing compensates
  the receipts in reverse, each compensation checking ownership first. `Runtime` is the transaction as functions over
  a world value; `Host` is the transaction as it is carried out, a class whose Keychain, files and image tags change
  under its methods, each method proved equal to its function. What tools and operator answer is a parameter
  (`Answers`), so every theorem speaks of every failure point, every misreport and every file that is not UTF-8.
* **What steps and runs come to**: `Outcomes` (when a step is applied, what it leaves, reports and touches), `Compensations`
  (the same for receipts) and `Runs` (which record a run ends in), each as exact conditions.
* **What the transaction promises**: `Soundness` (what a rolled-back run leaves), `Completeness` (when every
  compensation succeeds), `Convergence` (the second run), `Replay` (the second undo), `FirstSetup` (the first three from
  conditions on the plan and the starting world), `Boundaries` (the steps and plans for which it cannot put the world
  back, with the exact conditions).
* **The almost-inverses underneath**: `ManagedBlock`, `Templates`, `BlockLaws`, `RoundTrips`, `SafeBlocks`, `BlockSites` and
  `BlockRegex` (insertion, replacement and removal of blocks, as the text stands and as it is read back from its file,
  replacement templates with their escapes, several owners in one file, down to what the regular expressions match),
  `JsonMerge` (merging along a path and taking out again).
* **The projections**: `Undo` (the review of a rollback) and `Verification` (the claims of a record), each proved to agree
  with what the transaction does.
* **Custom scripts** (`CustomProtocol`), **the build context** (`BuildContext`, `ContextPaths`: copy, listing and digest),
  **the wizard** (`Wizard`, `WizardMoves`), **columns and status bar** (`Layout`, `LayoutText`) and **source configuration**
  (`Sources`, `SourceChanges`).
* `CodecWitness` shows that the assumptions made about JSON text (`World.Lawful`) are consistent.

Worlds are compared by `Soundness.Restored`: equal Keychains; the same image tags with the same images, except behind tags
the plan builds over; every file the same text, as it is read, up to trailing newlines, or the same JSON object up to hollow
objects in place of missing or null values, a missing file counting as empty text with the mode the run gives new files; and
at most new directories above targets. Reading turns every line end into one newline, so a file with other line ends counts
as restored when it comes back with newlines. Every part of that allowance is needed: `Boundaries` (with
`Boundaries.LineEndsChange` for the line ends) and `ManagedBlock.FreshRoundTrip` show plans that use it.

Where the code does something other than it says, the model follows the code:

* `docker.build` over an existing tag reports a complete rollback without restoring the tag (`Boundaries.BuildUndoneExactly`).
* A replaced block is inserted as a regular-expression template, so backslashes in it are interpreted
  (`Templates.VerbatimIffLiteral`, `BlockLaws.ReplacedVerbatim`, `RoundTrips.ReplaceRoundTrip`). A block that is not in
  the file yet is inserted as it is.
* The rollback pattern does not anchor its closing line, so content with an early closing line cannot be taken out again
  (`BlockLaws.EarlyCloseRefuses`), although the undo review lists it as reversed (`Undo.UnremovableStays`). For the same
  reason a block that is added behind an earlier one with text right behind its closing line takes out the earlier one
  when it is rolled back (`SafeBlocks.TextBehindClosing`).
* Files are written as they are and read with every line end as one newline. A block with a carriage return is therefore
  never found again: it is written anew by every run (`Boundaries.CarriageNeverSettles`) and no rollback takes it out
  (`RoundTrips.CarriageRefuses`, `Undo.UnremovableStays`).
* A managed target, a certificate bundle or a result of a script that is not UTF-8 raises an error that no handler of the
  transaction catches: the run ends without a record and without compensating anything (`FirstSetup.FirstSetupIsSafe` says
  exactly when, `Boundaries.UndecodableTargetStrands` and `CustomProtocol.IllegibleResultSkipsRollback` show such runs).
* A record freezes lists to tuples, so a merged value with a list in it is listed as reversible and never is
  (`Undo.FrozenListStays`).
* A custom script whose rollback receipt cannot be written is reported as rolled back although no rollback was attempted
  (`CustomProtocol.UnwritableReceiptSkipsRollback`).
* A Keychain tool that reports success but stores nothing makes every run end as an incomplete rollback although nothing
  is left behind (`Boundaries.SilentAddIsIncomplete`).

## Model

| member | source | states |
|---|---|---|
| FirstSetup.FirstSetupIsSafe | agent_artifacts/setup_runtime.py:1553-1716 | a plan whose markers are in none of its files yet, whatever its blocks hold, ends in a record if and only if every step it reaches finds text in its target or bundle, under every answer of tools and operator; when the record says cancelled, rolled back or verification failed, it has no receipts and the world is as it was |
| FirstSetup.TextTargetsDecode | agent_artifacts/setup_runtime.py:336-345 | managed targets that hold text or are missing before the run, and bundles that are text, are enough for that |
| FirstSetup.FirstSetupIsReversible | agent_artifacts/setup_runtime.py:1539-1752 | with reversible steps, separate targets and blocks that can be taken out again, a record of such a plan never says half undone: refused or failing anywhere the world is as it was, and undoing the record of a configured run gives the starting world back |
| FirstSetup.FirstSetupConverges | agent_artifacts/setup_runtime.py:1646-1716 | after a configured first setup every claim of the record is true and the next run is already configured, changing nothing |
| FirstSetup.PlacedIsOrderly | agent_artifacts/setup_runtime.py:680-686 | steps placed after the directories above them keep the run in the order that lets the directories be removed again |
| Soundness.RolledBackIsRestored | agent_artifacts/setup_runtime.py:1553-1716 | whatever fails or is refused, a record that says cancelled, rolled back or verification failed has no receipts and the world is restored |
| Soundness.Compensated | agent_artifacts/setup_runtime.py:1353-1495 | a compensation that reports success gives back the world before its step, whatever residue later steps and their compensations left |
| Soundness.FailureKeeps | agent_artifacts/setup_runtime.py:1320-1350 | a step that fails without a receipt leaves the world as it was, up to directories above its target |
| Soundness.RecoverableStep | agent_artifacts/setup_runtime.py:1539-1550 | receipts from which the start can be recovered stay so when one more step is applied |
| SafeBlocks.BlockComesBack | agent_artifacts/setup.py:1993-2028 | a safe block, read back from its file, is refused by the rollback or gives back the text from before up to trailing newlines |
| SafeBlocks.SafeExactly | agent_artifacts/setup.py:1993-2028 | the condition is exact: a block is safe if and only if its rollback does not give back another text |
| SafeBlocks.FreshUndoExactly | agent_artifacts/setup.py:1999-2028 | behind a line that already opens such a block, rolling an added one back is refused exactly when rolling back the file from before is, and otherwise gives another text |
| SafeBlocks.TextBehindClosing | agent_artifacts/setup.py:2017-2028 | an earlier block with text right behind its closing line is such a file: the rollback takes out the earlier block |
| Soundness.BlockIsNotJson | agent_artifacts/setup_runtime.py:621-629 | a file that received a block cannot be read as a JSON object, so undoing a block never meets a merged value |
| Completeness.RollbackAlwaysCompletes | agent_artifacts/setup_runtime.py:1539-1716 | reversible steps with separate targets, refused or failing at any index, never end in an incomplete rollback; several values may go to one new file below a new directory |
| Completeness.StepReady | agent_artifacts/setup_runtime.py:1353-1495 | each compensation succeeds on what the later ones leave and leaves the world ready for the earlier ones |
| Completeness.CreatedStays | agent_artifacts/setup_runtime.py:1406-1435 | taking one of several values out of a new file gives that file exactly as the step before had left it |
| Completeness.ConfiguredCanBeUndone | agent_artifacts/setup_runtime.py:1719-1752 | undoing the record of a configured run, nothing else having touched the world, empties the record and restores the world |
| Completeness.FrozenRollback | agent_artifacts/setup_runtime.py:1498-1536 | freezing the receipts of a record does not change how they are compensated as long as no merged value holds a list |
| Convergence.SecondRunIsQuiet | agent_artifacts/setup_runtime.py:1646-1716 | the same plan again after configured returns already configured, no receipts, and the identical world |
| Convergence.FirstSetupIsQuiet | agent_artifacts/setup_runtime.py:591-618 | a plan whose markers are on no line of its files yet meets the block conditions of the other theorems at every step |
| Convergence.SettledApplies | agent_artifacts/setup_runtime.py:1320-1350 | a settled effect applies without change |
| Convergence.AppliedSettles | agent_artifacts/setup_runtime.py:1320-1350 | an applied effect is settled afterwards |
| Convergence.SettledStays | agent_artifacts/setup_runtime.py:591-686 | a settled effect stays settled under every later compatible step |
| Replay.SecondUndoChangesNothing | agent_artifacts/setup_runtime.py:1719-1752 | undoing the record an incomplete undo left changes nothing more, also where several owners' blocks or several values share a file; after a complete undo the next one is a no-op |
| Replay.RecordsShareFiles | agent_artifacts/setup_runtime.py:653-669 | of two values in one file of a record, the later step found the file the earlier one had left |
| Replay.CompensationMakesInert | agent_artifacts/setup_runtime.py:1353-1495 | a compensation, done or refused, leaves nothing for a repetition to do |
| Replay.InertStays | agent_artifacts/setup_runtime.py:1353-1495 | compensating one receipt gives no other one anything to do again, in the same file or elsewhere |
| Replay.UnmergeOther | agent_artifacts/setup_runtime.py:1419-1428 | taking out one value does not make another one, at a diverging path, removable |
| BlockSites.UndoOnce | agent_artifacts/setup.py:2016-2028 | a block that was rolled back once is refused the second time, also where a prior block came back |
| BlockSites.OtherSiteStays | agent_artifacts/setup.py:2016-2028 | undoing one owner's block leaves another owner's block to be found, or refused, as before |
| BlockSites.OthersStayApart | agent_artifacts/setup.py:2016-2028 | ... and keeps the blocks of any two other owners outside each other |
| Runs.ConfiguredExactly | agent_artifacts/setup_runtime.py:1646-1716 | a run is configured if and only if every step is consented to and applied and some step reported a change, and its record holds the receipt of every step in order; it is already configured, with no receipts, if and only if every step is applied and none reported a change |
| Runs.StoppedRun | agent_artifacts/setup_runtime.py:1646-1716 | a run that stops compensates what its steps issued and owe; done, it says cancelled, verification failed or rolled back by the step it stopped at and keeps nothing; refused, it says incomplete and keeps every receipt; an unhandled error leaves no record |
| Runs.ChecksDecide | agent_artifacts/setup_runtime.py:1553-1627 | of the checks before the first step the first that fails gives the status, with the world untouched, and when all pass the run begins |
| Runs.RecordUndone | agent_artifacts/setup_runtime.py:1719-1752 | undoing a record empties it when every compensation is done and keeps it whole otherwise |
| Runs.VerdictExactly | agent_artifacts/setup_runtime.py:1539-1550 | a rollback is done if and only if every single compensation is, each in the world the later ones left |
| Outcomes.AppliedExactly | agent_artifacts/setup_runtime.py:1320-1350 | the exact condition on world and answers under which a step of each kind is applied |
| Outcomes.AppliedDelivers | agent_artifacts/setup_runtime.py:493-802 | what an applied step leaves: the stored item, the block where one of its owner stood or behind the text, the value at its path with everything off the path as before, the directory, the image, the tag |
| Outcomes.ChangedExactly | agent_artifacts/setup_runtime.py:493-802 | an applied step reports a change exactly when it had something left to do |
| Outcomes.AppliedReports | agent_artifacts/setup_runtime.py:493-802 | the receipt of an applied step says what was there before and what was put there |
| Outcomes.EscapesExactly | agent_artifacts/setup_runtime.py:1677-1716 | when a step raises an error that is not handled and when its error carries a receipt |
| Outcomes.OnlyTarget | agent_artifacts/setup_runtime.py:1320-1350 | applied or not, a step touches nothing but its target and missing directories above it |
| Outcomes.KeychainStores | agent_artifacts/setup_runtime.py:493-588 | after an add or a replacement the item holds what the tool stored, or else what was there |
| Outcomes.WriteMeans | agent_artifacts/setup.py:1993-2013 | what writing a block comes to when the file holds none of its owner, one, or several |
| Compensations.UndoneExactly | agent_artifacts/setup_runtime.py:1353-1495 | the exact condition under which a receipt of each kind is compensated, what that leaves, and that nothing changes otherwise |
| Compensations.ThrowsExactly | agent_artifacts/setup_runtime.py:1353-1495 | when a compensation raises an error that the rollback does not handle |
| Compensations.UndoMeans | agent_artifacts/setup.py:2016-2028 | a block is taken out if and only if the first block of its owner has the installed lines, leaving what is around it with the prior one, as a template, in its place |
| Boundaries.KeychainClassified | agent_artifacts/setup_runtime.py:493-588 | plain failure means an untouched Keychain, a receipt tells whether the item existed, and an error with a receipt arises exactly when the step may owe a compensation |
| Boundaries.SilentAddIsIncomplete | agent_artifacts/setup_runtime.py:544-578 | an add that reports success for nothing ends every run as an incomplete rollback |
| Boundaries.BuildUndoneExactly | agent_artifacts/setup_runtime.py:1472-1487 | undoing a build restores the tags if and only if the tag was new or already named the built image; over an old tag it reports success regardless |
| Boundaries.CancelledBuildMovesTag | agent_artifacts/setup_runtime.py:744-802 | a cancelled run with no receipts can leave a tag moved |
| Boundaries.TwoBlocksLeaveNewline | agent_artifacts/setup.py:1993-2028 | a new file that received two blocks is left with exactly one newline when both are rolled back |
| Boundaries.TwoBlocksInNewDirectory | agent_artifacts/setup_runtime.py:1382-1405 | hence a directory made around such a file cannot be removed and the run ends as an incomplete rollback |
| Boundaries.NestedValueInNewDirectory | agent_artifacts/setup_runtime.py:1406-1435 | the same with a new JSON file and a value below its root: the objects made on the path stay |
| Boundaries.LineEndsChange | agent_artifacts/io/fs.py:17-34 | a cancelled run with no receipts can leave a file with all its line ends changed |
| Boundaries.CarriageNeverSettles | agent_artifacts/setup_runtime.py:591-618 | a block with a carriage return is written anew by every run |
| Boundaries.UndecodableTargetStrands | agent_artifacts/setup_runtime.py:1677-1716 | a target that is not UTF-8 ends the run without a record and leaves the Keychain item of the step before |
| Undo.PlanUndo | agent_artifacts/setup_undo.py:38-57 | the loop builds the review: receipts from the last one back, with their position and disposition |
| Undo.RollbackFollowsReview | agent_artifacts/setup_undo.py:38-57 | the rollback compensates the receipts in exactly the order of the review |
| Undo.KeepsChangesNothing | agent_artifacts/setup_undo.py:106-175 | a receipt listed as kept is answered the same in every world and nothing changes |
| Undo.KeptExactlyWhenFixed | agent_artifacts/setup_undo.py:106-175 | whether a receipt is compensated depends on neither world nor tools if and only if it is listed as kept or is not sound |
| Undo.IssuedSound | agent_artifacts/setup_runtime.py:1320-1350 | every receipt of a step whose block can be taken out again, whose prior block is a template and whose value holds no list is sound |
| Undo.RemovableIsSound | agent_artifacts/setup.py:2016-2028 | an installed block is sound if and only if it does not close early, holds no carriage return and what it replaced is a template |
| Undo.UnsoundStays | agent_artifacts/setup_runtime.py:1353-1495 | a receipt that is listed as reversed but not sound is never compensated, in any world, and nothing changes |
| Undo.UnremovableStays | agent_artifacts/setup_undo.py:121-130 | a block that closes itself early or holds a carriage return is listed as reversed but no rollback takes it out |
| Undo.BadPriorStays | agent_artifacts/setup_undo.py:121-130 | neither does it a block that replaced one which is no template |
| Undo.FrozenListStays | agent_artifacts/setup_runtime.py:1406-1435 | a frozen merged value with a list in it is listed as reversed but never taken out |
| Undo.StuckForcesIncomplete | agent_artifacts/setup_undo.py:106-175 | a replaced value, a new pull, an irreversible script or a receipt that is not sound makes every rollback of the record that returns incomplete, in any world |
| Undo.AllKept | agent_artifacts/setup_undo.py:106-175 | a record whose receipts are all kept and none impossible is undone by doing nothing |
| Undo.CountsCover | agent_artifacts/setup_undo.py:60-79 | the two counts of the payload add up to the number of receipts |
| Undo.CountsExactly | agent_artifacts/setup_undo.py:60-79 | each count is the number of receipts with that disposition |
| Verification.PlanVerification | agent_artifacts/setup_verify.py:96-107 | the loop collects the claims of every receipt that was not compensated |
| Verification.FreshRecordVerifies | agent_artifacts/setup_verify.py:187-300 | directly after a configured run every claim about Keychain, blocks that last, JSON files and images is true |
| Verification.StandingIsTrue | agent_artifacts/setup_verify.py:248-318 | an effect that stands makes the claims of its receipt true |
| Verification.ClaimsExactly | agent_artifacts/setup_verify.py:187-300 | all claims of a receipt are answered true if and only if what it records is there: the item with a value, the installed block in its file, the image, the tag with the recorded image, the file |
| Verification.LostIsFalse | agent_artifacts/setup_verify.py:187-300 | an effect that was lost makes some claim of the whole record false |
| Verification.ClaimsAcross | agent_artifacts/setup_verify.py:96-107 | claims are listed receipt by receipt, in the order of the record |
| Host.Host.ApplySetupPlan | agent_artifacts/setup_runtime.py:1553-1643 | carried out in place, the transaction ends with the record and world of its function; the working copy is closed whatever way it ends |
| Host.Host.ApplyEffects | agent_artifacts/setup_runtime.py:1646-1716 | the loop that appends receipts and stops at the first refusal or failure computes the run |
| Host.Host.ManagedFilePreflight | agent_artifacts/setup_runtime.py:357-370 | the loop passes if and only if no managed target is something else than a regular file |
| Host.Host.RollbackAll | agent_artifacts/setup_runtime.py:1539-1550 | the loop over the reversed receipts goes on after a failed compensation and reports whether all succeeded |
| Host.Host.RollbackRecord | agent_artifacts/setup_runtime.py:1719-1752 | undoing a record in place gives the record and world of its function |
| Host.Host.RollbackReceipt | agent_artifacts/setup_runtime.py:1353-1495 | each compensation in place, with its ownership guards |
| Host.Host.KeychainApply | agent_artifacts/setup_runtime.py:493-588 | the Keychain step in place, with its second lookup and its cleanup |
| Host.Host.BlockApply | agent_artifacts/setup_runtime.py:591-618 | the block step in place |
| Host.Host.MergeApply | agent_artifacts/setup_runtime.py:621-669 | the JSON step in place |
| Host.MergeAlong | agent_artifacts/setup_runtime.py:632-650 | walking a cursor down the path and putting the value at the leaf computes the recursive merge |
| Host.UnmergeAlong | agent_artifacts/setup_runtime.py:1419-1428 | walking down and popping the leaf computes the recursive removal |
| Host.Host.DirectoryApply | agent_artifacts/setup_runtime.py:680-686 | the directory step in place |
| Host.Host.PullApply | agent_artifacts/setup_runtime.py:689-718 | the pull step in place |
| Host.Host.BuildApply | agent_artifacts/setup_runtime.py:744-802 | the build step in place, from the one working copy of the run |
| Host.RunWorkspace.Open | agent_artifacts/setup_runtime.py:727-735 | a working copy is made at most once, used again, and a failed copy leaves no run directory |
| ManagedBlock.FreshRoundTrip | agent_artifacts/setup.py:1993-2028 | rolling back a fresh block gives the text and its separator exactly when no line opened such a block and the content does not close it early |
| RoundTrips.FreshReadsBack | agent_artifacts/io/fs.py:17-34 | after reading it back from the file, exactly when in addition the block holds no carriage return |
| RoundTrips.CarriageRefuses | agent_artifacts/io/fs.py:17-34 | a block with a carriage return is refused by every rollback on a text that was read |
| RoundTrips.ReadBackIsIdempotent | agent_artifacts/setup_runtime.py:591-618 | the next run, reading the block back, reports no change if and only if the content holds neither its closing line nor a carriage return |
| ManagedBlock.UndoesPlaced | agent_artifacts/setup.py:2016-2028 | rolling back a block where it stands gives the text before it, the prior block and the text after it, or refuses when it is not the installed one |
| Templates.VerbatimIffLiteral | agent_artifacts/setup.py:2007 | a replacement template, with character and octal escapes and references to the match and its group, is inserted verbatim exactly when no backslash in it is active |
| Templates.ReproducesIffLiteral | agent_artifacts/setup.py:2007-2028 | not even the beginning of what is inserted, as it stands or as it is read back, is the template otherwise |
| Templates.EscapedExpands | agent_artifacts/setup.py:2007 | every text is what its template with doubled backslashes inserts |
| Templates.ReferencesExpand | agent_artifacts/setup.py:2007-2028 | a bare or a named reference inserts the match or its group |
| Templates.ControlExpands | agent_artifacts/setup.py:2007 | the escape of a control character inserts it |
| Templates.OctalExpands | agent_artifacts/setup.py:2007 | three octal digits insert the character of that number |
| ManagedBlock.FindBlockMeaning | agent_artifacts/setup.py:1999-2000 | the search finds the first opening line with a closing line and its first closing line, and nothing exactly when there is none |
| ManagedBlock.DistinctMarkers | agent_artifacts/setup.py:1996-1997 | different markers have different opening and closing lines |
| BlockRegex.SearchIsRegex | agent_artifacts/setup.py:1999-2024 | the line search reports the leftmost, shortest match of the two regular expressions, character by character, and nothing exactly when there is no match |
| RoundTrips.ReplaceRoundTrip | agent_artifacts/setup.py:1993-2028 | rolling back a replacement gives the original text (one newline more when the old block ended the file) if and only if the content does not close early, neither the new nor the prior block holds an active backslash and, where the file is read back, the new block holds no carriage return |
| BlockLaws.ReplacedVerbatim | agent_artifacts/setup.py:2006-2007 | a replacement puts exactly the lines of the new block where the old one was if and only if the new block holds no active backslash |
| RoundTrips.ExpandedRefuses | agent_artifacts/setup.py:2006-2028 | a block that was written with a backslash expanded, whatever it made, is never rolled back |
| BlockLaws.EarlyCloseRefuses | agent_artifacts/setup.py:2023-2026 | content that closes its own block early can never be rolled back, in any file |
| BlockLaws.AcceptedMeans | agent_artifacts/setup.py:2023-2026 | where a rollback does not refuse, the first block of the file has exactly the installed lines |
| BlockLaws.EditedRefuses | agent_artifacts/setup.py:2025-2026 | a block edited since the run is refused |
| BlockLaws.WriteIsIdempotent | agent_artifacts/setup.py:1993-2013 | the same block a second time reports no change, if and only if the content does not hold its own closing line |
| BlockLaws.OneEmptyLine | agent_artifacts/setup.py:2008-2012 | a fresh block is set off by exactly one empty line |
| BlockLaws.StripExactly | agent_artifacts/setup.py:1998 | content loses exactly the blanks at its end |
| BlockLaws.WriteLeavesOther | agent_artifacts/setup.py:1993-2013 | writing one owner's block leaves another owner's block in place |
| BlockLaws.UndoLeavesOther | agent_artifacts/setup.py:2016-2028 | rolling back one owner's block leaves another owner's block and all other lines unchanged; a file that ended with it keeps an empty last line |
| BlockLaws.OtherBlockStays | agent_artifacts/setup.py:1999-2024 | lines foreign to an owner may be exchanged outside its block without moving what its search finds |
| BlockLaws.UndoRespectsSameText | agent_artifacts/setup.py:2016-2028 | a rollback does not depend on trailing newlines of the file, unless what is put back refers to the match |
| JsonMerge.MergeInstalls | agent_artifacts/setup_runtime.py:621-669 | a merge leaves the value at its path, and says replaced exactly when something was there |
| JsonMerge.MergeFrame | agent_artifacts/setup_runtime.py:632-650 | every value off the path is unchanged by a merge |
| JsonMerge.UnmergeFrame | agent_artifacts/setup_runtime.py:1419-1428 | ... and by its removal |
| JsonMerge.CollisionExactly | agent_artifacts/setup_runtime.py:632-650 | a merge collides exactly when a scalar or list stands on the path, or another value is at it and may not be replaced |
| JsonMerge.UnmergeExactly | agent_artifacts/setup_runtime.py:1419-1428 | a leaf is removed when it holds the installed value; one that was changed since (and was not null) is not |
| JsonMerge.UnmergeWhenThere | agent_artifacts/setup_runtime.py:1419-1428 | a value can be taken out if and only if the object around it is there and it is still the installed one, or both are null or missing |
| JsonMerge.HasListExactly | agent_artifacts/setup_runtime.py:1498-1536 | a value has a list that freezing changes if and only if a path through its objects leads to one |
| JsonMerge.MergeThenUnmerge | agent_artifacts/setup_runtime.py:621-669 | removing a merged value gives back the tree with only the missing or null objects on the path opened |
| JsonMerge.OpenedIsGrown | agent_artifacts/setup_runtime.py:633-640 | that opened tree differs from the original only by hollow objects |
| JsonMerge.UnmergeGrown | agent_artifacts/setup_runtime.py:1406-1435 | the same holds when the file has gathered further hollow objects in between |
| CustomProtocol.RunDirectory.CustomApply | agent_artifacts/setup_runtime.py:1160-1317 | the protocol in its run directory ends as specified; when it succeeds the directory holds exactly the three result files more |
| CustomProtocol.DoneExactly | agent_artifacts/setup_runtime.py:1160-1317 | a script counts as installed exactly when plan, apply and verify succeeded in this order and left nothing else |
| CustomProtocol.PhasesExactly | agent_artifacts/setup_runtime.py:1160-1317 | a phase is attempted exactly when all before it succeeded and left nothing but their result files, in this order |
| CustomProtocol.RollbackRunsOnce | agent_artifacts/setup_runtime.py:1195-1303 | once apply was attempted, for a script that does not succeed the rollback is attempted exactly once, last, if and only if its receipt can be written and every result so far is UTF-8 |
| CustomProtocol.IncompleteExactly | agent_artifacts/setup_runtime.py:1195-1303 | the error with a receipt is raised exactly when that rollback failed, and one that no handler catches exactly when some result is not UTF-8 |
| CustomProtocol.AttemptedIsReverse | agent_artifacts/setup_runtime.py:1539-1550 | a rollback attempts every receipt once, from the last one back, up to one that throws |
| CustomProtocol.RollbackAttempts | agent_artifacts/setup_runtime.py:1539-1550 | compensating exactly these, one after the other, is what the rollback does to the world |
| CustomProtocol.RunEnds | agent_artifacts/setup_runtime.py:1646-1716 | a run compensates the receipts collected where it stops, or none |
| CustomProtocol.AtMostTwice | agent_artifacts/setup_runtime.py:1160-1317 | in a whole transaction, inside the protocol and by compensation together, the rollback phase of a script is attempted at most twice, and twice only after it failed; an installed script at most once, a failed one never again |
| CustomProtocol.UnwritableReceiptSkipsRollback | agent_artifacts/setup_runtime.py:1201-1218 | whenever apply was attempted and failed and the receipt cannot be written, the step is a plain failure and no rollback was attempted |
| CustomProtocol.IllegibleResultSkipsRollback | agent_artifacts/setup_runtime.py:1047-1084 | nor was one whenever the apply or verify result is not UTF-8, although the receipt could be written |
| BuildContext.CopyContext | agent_artifacts/setup_runtime.py:960-975 | the recursive copy under a shared budget makes the specified tree and pays for it |
| BuildContext.CopyBudget.Take | agent_artifacts/setup_runtime.py:911-922 | every file counts with its size, and the budget says whether both bounds still hold |
| BuildContext.CopyExactly | agent_artifacts/setup_runtime.py:960-1001 | a copy succeeds exactly when the tree holds only files and folders and has at most 4096 files and 64 MiB |
| BuildContext.CopyHasSameDigest | agent_artifacts/setup_runtime.py:978-1018 | a copy lists the same paths, executable bits and contents as its source, so it has the same digest |
| BuildContext.ListingIgnoresOrder | agent_artifacts/setup_runtime.py:925-942 | the listing does not depend on the order in which directories are enumerated |
| BuildContext.DigestInputDecodes | agent_artifacts/setup_runtime.py:1004-1018 | what is hashed determines the list of paths, executable bits and content hashes |
| ContextPaths.ListedExactly | agent_artifacts/setup_runtime.py:925-942 | a file is listed if and only if following the folders of its path ends at it, with its executable bit and its content |
| ContextPaths.ListsExactlyFiles | agent_artifacts/setup_runtime.py:925-942 | two contexts list the same exactly when they have the same files at the same paths, whatever empty folders they hold |
| ContextPaths.DigestExactly | agent_artifacts/setup_runtime.py:1004-1018 | two contexts have the same digest input exactly then, as far as the hash separates their contents |
| ContextPaths.DigestAcross | agent_artifacts/setup_runtime.py:1013-1018 | files are hashed one after the other |
| ContextPaths.DigestOfOne | agent_artifacts/setup_runtime.py:1013-1018 | for each file its path, its executable bit and the hash of its content, with end marks |
| ContextPaths.CopiedExactly | agent_artifacts/setup_runtime.py:911-1001 | a context is copied if and only if it holds only files and folders and at most 4096 files and 64 MiB |
| ContextPaths.CopyHoldsSame | agent_artifacts/setup_runtime.py:945-975 | at every path a copy holds the same file, a folder for a folder, and nothing where nothing was |
| Wizard.FinalizeIsSafe | agent_artifacts/wizard.py:158-377 | after any sequence of events a session that can be finalized has a role, a source selection where one applies, and profiles, action and basket on the paths that need them |
| Wizard.EventSound | agent_artifacts/wizard.py:217-367 | every event keeps each stage that is both confirmed and listed ready |
| Wizard.BeforeChoice | agent_artifacts/wizard.py:217-258 | a choice brings in or takes out only later stages, so a stage that comes back is unconfirmed |
| Wizard.StagesAreListed | agent_artifacts/wizard.py:110-185 | the stage list holds exactly the stages whose conditions hold, each once, in one fixed order |
| Wizard.UnconfirmKeepsBefore | agent_artifacts/wizard.py:208-214 | of the listed stages exactly the confirmed ones before the given stage stay confirmed |
| Wizard.EventShaped | agent_artifacts/wizard.py:217-367 | driven at the current stage, the confirmed listed stages are exactly those before it |
| Wizard.InStepFinalize | agent_artifacts/wizard.py:278-377 | driven so, a session can be finalized exactly when it stands on review |
| Wizard.ChangedBasketBlocks | agent_artifacts/wizard.py:324-377 | a reconciliation that changes anything on a journey with artifacts blocks finalizing |
| Wizard.ReconcileBasket | agent_artifacts/wizard.py:324-367 | the loop over the basket computes the reconciled session |
| Wizard.ReconcileAccounts | agent_artifacts/wizard.py:332-347 | available items are kept in order, every other item has one notice with a reason, none is lost, and doing it again keeps all |
| Wizard.FinalizedIsReviewed | agent_artifacts/wizard.py:370-377 | finalizing under the reviewed revision finalizes the reviewed choices |
| WizardMoves.AdvanceMoves | agent_artifacts/wizard.py:278-292 | advancing confirms and visits a listed ready stage and leads to the next listed one; any other stage is not left |
| WizardMoves.BackMoves | agent_artifacts/wizard.py:295-309 | going back leads to the listed stage before, and unconfirms it and everything behind it |
| WizardMoves.SelectMoves | agent_artifacts/wizard.py:217-258 | a new choice unconfirms its stage and the later ones and is a revision; the same choice changes nothing |
| WizardMoves.ChoiceIsStored | agent_artifacts/wizard.py:220-247 | a choice is stored where its stage keeps it and nowhere else |
| WizardMoves.CheckoutMoves | agent_artifacts/wizard.py:261-275 | the current checkout drops source stage and selection and unconfirms the maintainer's action and everything behind it |
| WizardMoves.ReconcileMoves | agent_artifacts/wizard.py:324-367 | reconciling keeps remembered positions within the items there are and, when anything changes, unconfirms the artifact stage and those behind it |
| WizardMoves.RememberMoves | agent_artifacts/wizard.py:312-321 | one position is kept per stage, never a negative one |
| WizardMoves.RemovalIsExplained | agent_artifacts/wizard.py:332-343 | every item that goes is explained by the reason given for it or a general one |
| WizardMoves.AdvancingFinishes | agent_artifacts/wizard.py:278-377 | a session in shape whose journey is complete can be finalized after advancing alone, with every choice as it was |
| WizardMoves.UserFinishes | agent_artifacts/wizard.py:110-377 | every user's install, update, uninstall and status can be finished in step, with any choices |
| WizardMoves.MaintainerFinishes | agent_artifacts/wizard.py:110-377 | so can every maintainer's own action, with sources or with the current checkout |
| Layout.ShrinkToFit | agent_artifacts/tui_layout.py:102-125 | the shrinking loop keeps natural widths, fills the budget exactly or has every column at one; the first column gives way last; the others are levelled |
| Layout.FairIsUnique | agent_artifacts/tui_layout.py:102-125 | that promise determines the widths completely |
| Layout.ColumnWidths | agent_artifacts/tui_layout.py:102-125 | natural widths are the widest cells, then shrunk fairly |
| Layout.WidthsAreDetermined | agent_artifacts/tui_layout.py:102-125 | so rows and budget determine the allocation: no other widths keep the promise |
| Layout.Columns | agent_artifacts/tui_layout.py:128-144 | every row is laid out on one grid and no line exceeds the budget |
| Layout.LinesAreAligned | agent_artifacts/tui_layout.py:128-144 | when the widths fit, nothing is cut and every cell stands at the same place in every line |
| Layout.StatusBar | agent_artifacts/tui_layout.py:171-205 | the bar fits; counters go first from the right, then as few unprotected hints as possible, then it is cut |
| Layout.DroppedAll | agent_artifacts/tui_layout.py:171-205 | shedding hints never invents one and never sheds a protected one |
| LayoutText.CellShows | agent_artifacts/tui_layout.py:138-143 | a cell shows the text of its own row and column, whole or cut with a mark, and blanks behind it |
| LayoutText.CellsJoined | agent_artifacts/tui_layout.py:143 | a row is its cells with two blanks between them |
| LayoutText.HintsJoined | agent_artifacts/tui_layout.py:167-168 | every hint is shown as key, equals sign and action, in order, with a comma and a blank between them |
| LayoutText.CountersJoined | agent_artifacts/tui_layout.py:190 | counters stand with three blanks between them |
| LayoutText.CountersFit | agent_artifacts/tui_layout.py:191-196 | hints and counters fit beside each other with at least three blanks between them |
| LayoutText.MeasureMeans | agent_artifacts/tui_layout.py:82-85 | the measure is the width, at most the bound and at least one |
| Sources.ConfigurationOperations | agent_artifacts/tui_sources.py:142-169 | the loops list disables, enables and the default change, and refuse exactly when anything else differs |
| Sources.OperationsReplay | agent_artifacts/tui_sources.py:142-169 | performing the listed operations on the first configuration, in order, gives the second |
| Sources.AddThenRemove | agent_artifacts/tui_sources.py:529-654 | adding and then removing a source restores the configuration exactly when no default registry was displaced |
| Sources.RemovalIsOffered | agent_artifacts/tui_sources.py:611-654 | the removal is planned exactly when the source is not required and policy accepts the result |
| Sources.AdditionIsValid | agent_artifacts/tui_sources.py:529-608 | an addition keeps aliases ordered and distinct, and a default that was configured so |
| Sources.OnlyLocalDuplicatesRefuse | agent_artifacts/tui_sources.py:195-253 | past the checks of the planner, the request refuses exactly a local source whose location is configured already |
| SourceChanges.AdditionExactly | agent_artifacts/tui_sources.py:529-608 | an addition is planned if and only if the source is welcome, only a registry becomes the default and policy accepts the resulting configuration, and that is what is planned |
| SourceChanges.RemovalExactly | agent_artifacts/tui_sources.py:611-654 | a removal is planned if and only if the alias is configured, not required and policy accepts what is left, and that is what is planned |
| SourceChanges.ManageableExactly | agent_artifacts/tui_sources.py:142-169 | operations are listed if and only if some operations lead from the one configuration to the other |
| CodecWitness.LawfulCodecExists | agent_artifacts/setup_runtime.py:621-652 | the laws assumed of JSON text can all hold at once |

## Left out

- Soundness.RolledBackIsRestored: plans with custom scripts are excluded, because a script may change anything; tags that the plan builds over are excluded, because the code does not restore them (`Boundaries.BuildUndoneExactly` says exactly when it does). Block steps must be safe (`SafeBlocks.SafeBlock`); `SafeBlocks.SafeExactly` shows that this shuts out only blocks whose rollback gives back another text, and `SafeBlocks.TextBehindClosing` and `RoundTrips.ReplaceRoundTrip` show such blocks.
- SafeBlocks.SafeExactly: not stated for a marker with active backslashes that replaces a block, nor for content that holds its own opening line behind a line that opens such a block already; there the condition is only enough.
- Completeness.RollbackAlwaysCompletes: below a directory that the plan makes, a file holds one block or values at its root; `Boundaries.TwoBlocksInNewDirectory` and `Boundaries.NestedValueInNewDirectory` show why. Content that closes its block early or holds a carriage return is excluded, because it is never rolled back (`Undo.UnremovableStays`). Two steps on one file are both blocks or both merges.
- Completeness.ConfiguredCanBeUndone: excludes merged values with lists; `Undo.FrozenListStays` shows why.
- Convergence.SecondRunIsQuiet: excludes builds, custom scripts and replacing Keychain steps, which report a change every time, and content that holds its own closing line or a carriage return (`RoundTrips.ReadBackIsIdempotent` shows that exactly such content is written anew each time).
- Outcomes.AppliedDelivers: says nothing about custom scripts, which may do anything.
- Verification.ClaimsExactly: says nothing about exported certificates, whose file goes with the run; `Verification.LostIsFalse` says nothing about a block in a file that is not UTF-8 any more.
- ContextPaths.DigestExactly: supposes that the hash separates the contents of the two contexts.
- Verification.FreshRecordVerifies: excludes claims about exported certificates, whose file goes with the run, and stored secrets that are blank. What a file that is not UTF-8 shows to the probe is not modelled.
- Replay.SecondUndoChangesNothing: asks that a marker opens at most one block in its file, that a block ends with its whole closing line, that no block lies inside another, and that a block and a merged value do not share a file.
- Boundaries.KeychainClassified: the tool that looks an item up tells the truth and a successful delete deletes; only the add may misreport.
- The process runner is taken to return a result: timeouts and interrupts inside a tool call, output of a tool that does not decode, and crashes between two calls are not modelled. Pulls, builds and verify commands that fail are taken to leave no trace.
- Writing a file and setting its mode is one step; symbolic links in the directories above a target and permission bits of directories are not modelled.
- JSON text syntax is a parameter (`World.Codec`) with the laws of `World.Lawful`; the order of object keys, numbers that are not integers or are longer than the interpreter reads, duplicate keys and the equality of `True` and `1` in Python are not modelled. Strings are sequences of Unicode characters without lone surrogates.
- How the text of a block comes about (text inputs, quoting of shell values, plan construction from an installer descriptor) is not modelled: the content is given.
- The gates before the first effect (descriptor hash, preflight status, platform, required tools, text inputs) are flags, except for the look at managed targets.
- What a custom script does to the world, the content of its messages and the hash of its entry point; its run directory and the order of its phases are modelled.
- Certificate exports: only that they need the working copy and leave nothing behind.
- Advisory notes, secret lengths, recovery texts and all other wording of receipts, records, reviews and notices.
- Redaction and the persisted form of records: undo and verification are modelled on records as the run returns them.
- `receipt_matches_plan`, `upsert_setup_record`, `parse_installer`: single-branch validation and list upkeep.
- The claims about credentials in a record, its rollback command and orphaned working copies: they ask nothing of the modelled world.
- `WizardSession.source_label` and `source_root`, the projected stage list, the stepper and onboarding text: display only.
- `plan_source_management` beyond its operation list, resubscription, and the source stage view; canonical forms of sources, origins and policy are parameters.
- `wrap`, `field_block`, `pane_budget`: text wrapping and one-line arithmetic.
- SHA-256 is a parameter of which only the length of its hexadecimal form is used.
