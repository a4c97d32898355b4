# Verified models of breakthrough's core logic

A Dafny project that models the decision-making core of breakthrough, a terminal file manager
written in Go, and proves what that core is for: that a batch of renames happens as if all at once,
that a copy or a move never loses a file, that a commit graph's lanes mean what they show, that a
search expression, a configuration file or a diff says the same after a round trip. The operating
system is replaced by tables of paths; every step that can fail in the original may fail in the
model, at any time, for reasons of its own. Code that works step by step is a method over fields,
arrays or local sequences, proved against a specification function; what the code promises is then
proved about that function. `dafny verify dfyconfig.toml` checks everything.

## The parts

- **Batch rename** (`Rename`, `RenameOrder`, `RenameRefines`, `RenameApply`, `RenameFaults`,
  `RenameGuards`, `RenameSafety`, `RenameDisk`, `RenamePlan`). A file system is a table from paths to
  files and folders, and a rename replaces a file standing at its destination, as `os.Rename` does.
  `Order` is the in-place scheduler with its queue, blocker counts and deferred halves. Its schedule is
  shown to be the simultaneous renaming, with exactly one extra step for each cycle. The comment at
  `internal/batchrename/apply.go:121` says that a failed link of a chain makes its dependents fail; the
  code does not do that for files, because the rename replaces them. `FailedLinkOverwrites` is a
  concrete input, `FaultsExactly` says what a given set of failing steps does, and `SafeExactly` which
  batches keep every content, and can always be undone, whatever is refused: those in which no file is
  to land where another file of the batch stands. `NoClobberSafe` is the unconditional promise for a
  rename that refuses an occupied destination.
- **Merkle root** (`Merkle`). Over an arbitrary hash: two lists of files have the same root exactly
  when they pad to the same tree, or else two of the byte strings really hashed, one from each side,
  collide. For lists sorted by path that makes the lists equal.
- **Copy, move, sizes** (`FileTree`, `FileDisk`, `FileFits`, `FileCopy`, `FileMove`, `FileTotal`). A file
  system is a table from component paths to files, links and directories. Every primitive may fail for
  a reason of its own; a ghost field counts these failures, and another collects every state the disk
  has ever been in, so that a promise about "at any point of any run" is a promise about that set, and
  a run in which nothing failed of itself is shown to succeed exactly when it can.
- **Commit graph** (`LaneSpec`, `LanePicture`, `GraphLanes`). The lanes are a state machine with one
  step per commit; each row is proved to show that step, column by column.
- **Search expressions** (`Trimming`, `Letters`, `QueryText`, `QueryParse`, `QueryRead`, `QueryGrammar`,
  `QueryMinimal`, `QueryEval`). Tokenizer, precedence parser and evaluator; how words and quotes are
  read, letter by letter, and which tokens spell which tree, as rules of a grammar; a printer that the
  parser inverts and that needs the fewest parentheses; and the negation normal form that explains
  which terms are highlighted.
- **Firewall rules** (`Firewall`). Rules as sets of packets, with IPv4 and IPv6 prefixes (section 3.1
  of RFC 4632): when `covers` is exactly set inclusion, why rules marked as shadowed can all be
  deleted at once, and what a simulation answers.
- **Tree comparison** (`Sorting`, `CompareTrees`, `CompareVerdicts`). The lock-step walk, and a second,
  independent account of which entries it must report and with which verdict.
- **Labels** (`Labels`). A table rewritten while it is being ranged over, for every visiting order,
  and when the outcome depends on that order.
- **Configuration** (`TextLines`, `ConfigText`, `ConfigEdit`, `ConfigTiers`). `SetKey` edits the first
  assignment of a key and `ParseFile` keeps the last one; `SetKeyExactly` says when that matters.
- **Side-by-side diffs** (`DiffRows`, `DiffText`, `DiffParse`). Rows from operation lines, and reading a
  rendered unified diff back.

## Where the code departs from what it is said to do

- A failed link of a rename chain lets its dependents overwrite the file that could not move away; a
  folder is not overwritten (`RenameFaults.FailedLinkOverwrites`, `RenameGuards.FailedLinkStops`). A
  batch is safe against this, whatever is refused, exactly when no file of it is to land where another
  file of it stands (`RenameSafety.SafeExactly`).
- A path given twice is planned for two renames, of which only one can be carried out
  (`RenamePlan.PathGivenTwice`, `RenamePlan.AlwaysValidExactly`). The two callers of `Plan`
  (`internal/ui/batchrename.go:757`, `internal/ui/batchrename.go:992`) pass a selection, which lists
  every path once.
- A rule that spells out ports 0 to 65535 matches every packet but is not seen to cover a rule without
  ports (`Firewall.AllPortsSpelledOut`, `Firewall.CoversExactly`).
- Rehoming labels into a folder inside or around the old one can lose a label, depending on the order
  in which the table is ranged over (`Labels.OrderMatters`, `Labels.RehomeExactly`).
- `SetKey` has no effect on a key that the file assigns more than once, unless the value is already in
  force (`ConfigEdit.SetKeyShadowed`, `ConfigEdit.SetKeyExactly`).
- `Overlaps` does not notice a destination whose first component below the source begins with two
  dots, nor a source inside the destination (`FileTree.OverlapMissed`, `FileTree.OverlapsExactly`).
  Replacing such a destination removes the source before it is read
  (`FileCopy.SourceInsideDestination`). Merging into it is safe unless the path that leads from the
  destination to the source leads on to a directory inside the source, as `/d/x/x` when `/d/x` is
  moved to `/d`: then no move that reports success keeps what was there. If something else than a
  directory stands there, the move fails and the source stays (`FileMove.MovedUpExactly`,
  `FileMove.Move`).
- The comment at `internal/fsops/copy.go:239` says that a followed link into the destination's tree is
  recognised as an overlap. Only a link to the destination itself or to a directory holding it is
  refused (`FileCopy.CopyTarget`, `FileTree.OverlapsExactly`); any other is followed.
- `Walk` reports side A's failure when a path fails on both sides, so swapping the arguments is exact
  only without such paths (`CompareTrees.BothSidesFail`, `CompareTrees.SwapWalk`).
- A file path that itself holds ` b/` is cut short in a parsed diff, and the header of a quoted path is
  not recognised (`DiffText.HeaderPathExactly`, `DiffText.QuotedHeaderMissed`).
- Removing the only line of a configuration file leaves one empty line (`ConfigText.LinesRoundTrip`).
- Without distinct paths a Merkle root does not determine the list: after an odd number of files, more
  than one, a repeated last file is invisible (`Merkle.RepeatedLastFile`).

## Model

| member | source | states |
|---|---|---|
| RenameOrder.SourceTable | internal/batchrename/apply.go:39-42 | the table gives, for every path, the last change that starts there |
| RenameOrder.Dependencies | internal/batchrename/apply.go:43-50 | who waits for whom, and how many changes block each one |
| RenameOrder.InitialQueue | internal/batchrename/apply.go:57-61 | the queue starts with exactly the changes nothing blocks |
| RenameOrder.Release | internal/batchrename/apply.go:64-73 | releasing a change keeps the queue, the blocker counts and the done marks in step with the set of started changes |
| RenameOrder.BreakCycle | internal/batchrename/apply.go:76-91 | the lowest pending change goes through the next temporary name, its second half is deferred, and every bookkeeping invariant holds again |
| RenameOrder.Order | internal/batchrename/apply.go:31-101 | terminates; every change is started once, after the one it waits for or after that one was staged; with distinct targets the staged changes are exactly one per cycle and the number of steps is the number of changes plus the number of cycles |
| RenameOrder.LowestLeads | internal/batchrename/apply.go:77-81 | among changes that all wait for one another, the lowest one is the leader of its cycle |
| RenameOrder.LeadersMeet | internal/batchrename/apply.go:17-23 | a cycle has only one leader |
| RenameOrder.StagedAreLeaders | internal/batchrename/apply.go:17-23 | if every cycle is reached and only leaders are staged, the staged changes are exactly the leaders |
| RenameRefines.ScheduleRefines | internal/batchrename/apply.go:11-31 | on any batch as Plan delivers it, every step finds its source present and its destination free, the run is exactly the simultaneous renaming, and no temporary name is left |
| RenameRefines.FirstHalvesSerial | internal/batchrename/apply.go:92-98 | each main-loop step runs on a free destination and a present source |
| RenameRefines.SecondHalvesSerial | internal/batchrename/apply.go:54-100 | so does each deferred second half |
| RenameRefines.TemporariesLeave | internal/batchrename/apply.go:83-100 | every temporary name that is used is vacated again |
| Rename.SerialRun | internal/batchrename/apply.go:11-31 | renames with distinct ends, present sources and free destinations compose to one simultaneous renaming |
| RenameApply.PresentBefore | internal/batchrename/apply.go:127-139 | with any failing steps, a name exists before step k exactly if a step put it there and none took it since, or it is an untouched original |
| RenameApply.ContentsKept | internal/batchrename/apply.go:127-139 | with any failing steps, the multiset of contents survives exactly when no step lands on an occupied name |
| RenameApply.RunNeverMore | internal/batchrename/apply.go:127-139 | no run ever duplicates a file |
| RenameApply.ClobberShrinks | internal/batchrename/apply.go:127-139 | a run in which some step replaces a file ends with fewer files |
| RenameApply.UndoRestores | internal/batchrename/apply.go:141-162 | undoing exactly the applied steps restores the original exactly when nothing was replaced |
| RenameFaults.FaultsExactly | internal/batchrename/apply.go:118-162 | for a scheduled batch and any set of failing steps, contents survive, and undoing restores the original, if and only if no change arrives on a file whose own first step failed |
| RenameApply.NoFaultRun | internal/batchrename/apply.go:127-139 | a run whose steps all find source present and destination free is carried out in full |
| RenameFaults.FailedLinkOverwrites | internal/batchrename/apply.go:120-123 | a failed first link of a chain: the dependent overwrites the file that could not move, against the comment |
| RenameGuards.GuardedIsRun | internal/batchrename/apply.go:127-139 | a run under a rename that looks at the destination first is the plain run in which the steps it stops are failures |
| RenameGuards.OsFaultsExactly | internal/batchrename/apply.go:118-162 | with files and folders as os.Rename treats them, and any set of refused steps: contents survive, and undoing exactly the applied steps restores the original, if and only if no change arrives on one that did not leave |
| RenameGuards.FoldersKept | internal/batchrename/apply.go:127-139 | whichever steps are refused, no folder is lost or duplicated |
| RenameGuards.FailedLinkStops | internal/batchrename/apply.go:120-123 | a folder that could not move away stops the change behind it, and nothing changes |
| RenameGuards.NoClobberSafe | internal/batchrename/apply.go:118-162 | with a rename that refuses an occupied destination, as the comment takes for granted, no failing steps lose or duplicate content, and undoing exactly the applied steps restores the original |
| RenameSafety.FailingAt | internal/batchrename/apply.go:128-136 | a step fails exactly if it is refused or a folder is in its way where the run stands |
| RenameSafety.OnlyFilesOverrun | internal/batchrename/apply.go:118-139 | a change that arrives on one that did not leave is a file landing on a file |
| RenameSafety.RefusedOverruns | internal/batchrename/apply.go:118-139 | where a file is to land on a file of the batch, refusing the first step of the latter alone makes it land there |
| RenameSafety.SafeExactly | internal/batchrename/apply.go:118-162 | whichever renames are refused, every content survives, and undoing the applied steps restores the original: exactly when no file of the batch is to land where another file of the batch stands |
| RenameDisk.Disk.Rename | internal/batchrename/apply.go:130 | os.Rename on this table: fails on a missing source, when a folder would replace something or be replaced, or when refused; otherwise replaces the destination |
| RenameDisk.Disk.Carry | internal/batchrename/apply.go:128-138 | the loop carries out every step it can, goes on past failures, and reports the path of the first step that failed, if any did |
| RenameDisk.Disk.Apply | internal/batchrename/apply.go:127-139 | a failure-free run is the simultaneous renaming; any run keeps all contents exactly if no change arrives on one that did not leave, and always if no file is to land on a file of the batch |
| RenameDisk.Disk.Undo | internal/batchrename/apply.go:149-162 | reverses the applied steps last first, past failures, and reports the first that failed |
| RenameDisk.ApplySummary | internal/batchrename/apply.go:113-139 | the two promises of Apply about one schedule |
| RenamePlan.FilterPass | internal/batchrename/plan.go:184-206 | one in-place pass: the survivors at the front in order, a dropped change ceasing to count as moving at once, each dropped one reported |
| RenamePlan.SettleCollisions | internal/batchrename/plan.go:179-212 | for candidates with distinct targets, sources repeated or not: returns the greatest choice in which every target is free or is vacated by the choice, in order, and reports each of the others |
| RenamePlan.Claim | internal/batchrename/plan.go:121-157 | the first path to want a name gets it; every other path keeps its name or has one problem of its own, in order, with its reason and, for a taken name, the first path that wants it |
| RenamePlan.CandidateSpelled | internal/batchrename/plan.go:124-157 | a path is a candidate for a name exactly when it wants that name, a new one in its own directory, and no earlier path wants the same |
| RenamePlan.ObjectionExactly | internal/batchrename/plan.go:134-152 | a path is refused exactly for its rule, an empty name, or a name that an earlier path gets, the first that wants it |
| RenamePlan.SettledExactly | internal/batchrename/plan.go:184-200 | a choice is settled when every new name is free, is the file's own, or is vacated because all changes from there are chosen |
| RenamePlan.Plan | internal/batchrename/plan.go:120-163 | for any paths, repeated or not: the greatest settled choice, with distinct targets, and distinct sources if no path was given twice; every path is accounted for, first the problems of paths that are no candidates, each with its reason, then one for every refused candidate |
| RenamePlan.PlanIsValid | internal/batchrename/plan.go:82-120 | what Plan returns is what Order expects exactly when no settled choice among the candidates renames a file twice, or merely gives it another of its own names |
| RenamePlan.AlwaysValidExactly | internal/batchrename/plan.go:82-120 | where no two names are one file, candidates lead to a valid batch on every disk exactly when no two have one source |
| RenamePlan.DistinctPlanIsValid | internal/batchrename/plan.go:120-163 | in particular when every path is given once and no two names are one file |
| RenamePlan.PathGivenTwice | internal/batchrename/plan.go:120-163 | a path given twice with two new names is planned for both |
| Merkle.MerkleRoot | internal/contextindex/index.go:310-334 | the nested loops compute the root defined level by level |
| Merkle.RootSpelled | internal/contextindex/index.go:310-334 | the roots of no file, of one, of two and of three, with every hash and its input written out |
| Merkle.HalvesRoot | internal/contextindex/index.go:320-332 | the root of two full halves is the hash of the left root followed by the right one |
| Merkle.HexSpelled | internal/contextindex/index.go:313-333 | two small hexadecimal digits a byte, the higher one first |
| Merkle.LeafInputInjective | internal/contextindex/index.go:316-319 | a leaf's input determines the file |
| Merkle.DepthsDiffer | internal/contextindex/index.go:316-332 | a shallower tree's leaf cannot pass for a deeper tree's node: equal roots at different depths exhibit a collision |
| Merkle.PaddingDecidesRoot | internal/contextindex/index.go:320-332 | lists that pad to the same tree have the same root |
| Merkle.RootsExactly | internal/contextindex/index.go:310-334 | equal roots if and only if the padded trees are the same, or else two different hashed inputs, one from each side, have one digest |
| Merkle.PaddingDecidesList | internal/contextindex/index.go:322-326 | duplicate-free lists that pad to the same tree are the same list |
| Merkle.RootDeterminesFiles | internal/contextindex/index.go:310-334 | duplicate-free lists with one root are the same list, or a collision is at hand |
| Merkle.SortedRootDeterminesFiles | internal/contextindex/index.go:156 | the same for lists sorted by path, as the index keeps them |
| Merkle.RepeatedLastFile | internal/contextindex/index.go:322-326 | after any odd number of files but one, a repetition of the last is invisible to the root, whatever the hash |
| FileTree.OverlapsExactly | internal/fsops/copy.go:262-283 | the test answers "the same or inside the source" wrongly exactly when the step below the source begins with two dots, and "one is inside the other" also when the source is inside the destination |
| FileTree.OverlapMissed | internal/fsops/copy.go:278-282 | a destination inside the source that the test does not notice |
| FileTree.DotsExactly | internal/fsops/copy.go:282 | what the test looks for is a beginning of two dots |
| FileCopy.SourceInsideDestination | internal/fsops/copy.go:174-209 | a source inside the destination is not refused, and once a replacing copy has cleared the destination nothing of the source is left |
| FileDisk.Disk.Remove | internal/fsops/copy.go:470-474 | unlink or rmdir: exactly one entry goes, and a directory only if it has no entries; without a failure of its own it fails for no other reason |
| FileDisk.Disk.RemoveAll | internal/fsops/copy.go:205-209 | whatever step fails, only entries at and below the path are gone; on success all of them; it succeeds if no step fails of itself |
| FileDisk.Disk.WriteNew | internal/fsops/copy.go:482-512 | exclusive creation: an existing entry is left alone; success means the whole content and as many bytes streamed, and needs a free name in a directory that is there, and no more if nothing fails of itself; nothing else changes at any point |
| FileDisk.Disk.MkdirAll | internal/fsops/copy.go:550 | missing directories appear on the way, nothing else changes; without a failure of its own it succeeds exactly if the lowest thing that exists on the way is a directory and the path is not too long |
| FileCopy.CopyFile | internal/fsops/copy.go:466-529 | success puts the source's content at the destination; only the destination is ever touched |
| FileCopy.CopyDir | internal/fsops/copy.go:547-599 | the recursive overlay of the source's tree; at every point nothing outside the destination and nothing in the copied tree has changed |
| FileCopy.CopySymlink | internal/fsops/copy.go:624-687 | the link itself, or the tree it resolves to, laid over the destination |
| FileCopy.RecreateLink | internal/fsops/copy.go:629-654 | the same link text at the destination, no bytes streamed |
| FileCopy.CopyTarget | internal/fsops/copy.go:656-686 | what the link resolves to is copied as if it had been named; one that resolves to nothing, to the destination, to where a link at the destination leads, or to a directory that holds the destination is refused, and nothing happens |
| FileCopy.Copy | internal/fsops/copy.go:174-219 | success: the destination is the source's tree laid over what was there (merging) or over nothing (replacing), every entry met has been copied, nothing has been laid on the source's own tree, and without following links the bytes streamed are the tree's size; without a failure of its own it succeeds exactly if it can; always, also when the source lies inside the destination or links lead into the destination: at no point of the run has anything in the source or outside the destination changed; refusals change nothing |
| FileCopy.CopyEntries | internal/fsops/copy.go:560-599 | the loop over a directory: on success every entry could be laid down where it was to go, and without failures of their own it stops only at one that could not |
| FileCopy.CanCopyExactly | internal/fsops/copy.go:174-219 | keeping links, a copy can succeed exactly if there is a source, the destination is neither the source nor inside it and is free or may be overwritten, the way to it is there, no path is too long, and every directory meets a directory or nothing, every file or link nothing, no directory, or an empty one |
| FileCopy.FileOverFile | internal/fsops/copy.go:470-474 | a forced copy of a file over a file can succeed |
| FileFits.SuitsDir | internal/fsops/copy.go:547-599 | a directory can be laid down if it fits itself and all its entries can |
| FileFits.SuitsTarget | internal/fsops/copy.go:656-686 | a followed link can be laid down if it fits itself and what it leads to can |
| FileCopy.CopyablePassable | internal/fsops/copy.go:158-174 | under what a copy asks of its caller, nothing is laid on the source's own tree but what a directory that holds something refuses |
| FileCopy.FinishedClear | internal/fsops/copy.go:158-219 | and so a copy that has finished has laid nothing there |
| FileCopy.CopiedTree | internal/fsops/copy.go:165-173 | entry by entry: merging keeps what only the destination has, replacing leaves exactly the source's tree |
| FileTree.CompleteDir | internal/fsops/copy.go:560-591 | a directory whose entries have all been copied has been copied completely |
| FileMove.Rename | internal/fsops/move.go:134-137 | rename(2): all or nothing, never onto a directory that holds anything; without a failure of its own it refuses only a missing source, a missing parent, a path too long, or a directory in the place of a file, and calls a place occupied only for a directory |
| FileMove.ClearDestination | internal/fsops/move.go:120-130 | a directory replaced by a directory is removed first; otherwise nothing happens |
| FileMove.CopyAcross | internal/fsops/move.go:155-168 | the fallback: copy, then remove the source; its streamed bytes are the source's size; it succeeds if the copy can and nothing fails of itself |
| FileMove.Move | internal/fsops/move.go:108-169 | at every point of every run, whichever step fails, either the source's tree is intact or the destination holds all of it, and nothing outside the two is removed or changed; on success the source is gone and the destination is what a copy would have left, by rename and by fallback alike; a move that would land an entry on the source itself does not succeed; it succeeds if nothing fails of itself, the copy could succeed, and there is a place for the new name or a directory to merge into |
| FileMove.CanMoveRenames | internal/fsops/move.go:134-153 | then the rename does not refuse, and finds the place occupied only where it is to merge |
| FileMove.MovedUpExactly | internal/fsops/move.go:134-168 | a move up into a directory the tree lies in: what Move asks for holds exactly if the path leading to the tree does not lead on to a directory inside it; some outcome without the source keeps everything exactly if it leads on to nothing; and if it leads on to anything, no run that reports success keeps the promise |
| FileMove.RenamedLaid | internal/fsops/move.go:134-137 | the fast path leaves the same destination as the copying fallback |
| FileMove.MoveFollowingSymlinks | internal/fsops/move.go:217-241 | the same promises when links are followed: the links go, what they lead to stays; without a failure of its own it succeeds exactly if the copy can |
| FileMove.TakeAway | internal/fsops/move.go:230-240 | the source goes by its own name, a link as a single entry |
| FileMove.RemovalSafe | internal/fsops/move.go:165-168 | once the destination is complete, removing the source entry by entry loses nothing |
| FileMove.SameTotal | internal/fsops/move.go:155-164 | a tree that has not changed has the same size |
| FileTotal.TotalBytesOne | internal/fsops/totalbytes.go:47-71 | the size of the readable part of the tree, unless cancelled; then at most that |
| FileTotal.TotalBytes | internal/fsops/totalbytes.go:36-45 | the sum over the paths, unless cancelled; then at most that |
| FileTotal.EstimateExactly | internal/fsops/totalbytes.go:10-27 | the estimate never exceeds what a copy streams, and equals it exactly when no unreadable entry holds bytes |
| LaneSpec.StepKeeps | internal/git/graph.go:87-158 | after one row the commit is no longer waited for and its parents are; every other lane keeps its hash and its id; ids stay distinct |
| LaneSpec.FirstParentInherits | internal/git/graph.go:139 | the commit's lane goes to the first parent, column and id unchanged |
| LaneSpec.ActiveAreAwaited | internal/git/graph.go:87-158 | after any number of rows the active lanes hold exactly the parents seen but not yet processed |
| LaneSpec.CompleteLogEndsEmpty | internal/git/graph.go:87-160 | a log that lists every parent ends with no active lane |
| LaneSpec.FirstParentWaits | internal/git/graph.go:59-65 | until the first parent's row comes, its lane stays in its child's column with its child's id |
| LaneSpec.FirstParentColumn | internal/git/graph.go:92-110 | a first parent keeps its child's column and id exactly when that lane is the leftmost one waiting for it |
| LaneSpec.ColumnExactly | internal/git/graph.go:92-110 | a commit stands in the leftmost lane waiting for it, or if none does, under the next id in the leftmost free column |
| LaneSpec.ForkExactly | internal/git/graph.go:141-155 | a further parent's lane is one that waits for it, or a new one under the next id in the leftmost free column |
| GraphLanes.DrawCorner | internal/git/graph.go:170-196 | the bend at its column, to the right or the left as it lies, a join or a fork, a run over plain columns in between, nothing else |
| LanePicture.PictureGrows | internal/git/graph.go:163-196 | one more corner: a column shows its corner, or a run exactly if it lies between the node and some corner, or what was there |
| GraphLanes.TrimCells | internal/git/graph.go:204-217 | cuts only empty columns or columns past the cap, never the node |
| GraphLanes.CloseJoins | internal/git/graph.go:124-131 | every other lane waiting for the commit is freed and drawn as a join |
| GraphLanes.OpenForkCells | internal/git/graph.go:141-155 | the lanes of the further parents, each drawn as a fork, the picture kept |
| GraphLanes.LayRow | internal/git/graph.go:88-158 | one row is one step of the state machine, and its cells show it |
| GraphLanes.CommitLanes | internal/git/graph.go:65-161 | one row per commit; each has exactly one node, in the commit's column with its lane's id, shows every lane in use unless cut at eight columns, shows exactly the corners and runs of its joins and forks, and is no wider than it must be |
| GraphLanes.MergeShown | internal/git/graph.go:141-155 | every further parent of a merge is shown in its lane's column with its lane's id, by ForkRight if that is right of the node and by ForkLeft if left of it |
| GraphLanes.JoinShown | internal/git/graph.go:124-131 | every lane that ends at a commit shows JoinRight right of the node and JoinLeft left of it, unless a fork took over its column in the same row |
| GraphLanes.GlyphMeans | internal/git/graph.go:112-158 | and conversely what each glyph says: a join, that the lane of its column waited for the commit; a fork, that it waits for a further parent from here on; a pass, that it is in use; an empty cell, that it is not |
| QueryText.TokenizeQuery | internal/filterexpr/query.go:215-260 | the loop computes the token sequence, or the same error |
| QueryRead.WordRead | internal/filterexpr/query.go:198-255 | a word up to the next blank, parenthesis or quote is the operator its letters spell, each in either case, and otherwise a term with that text |
| QueryRead.MarkRead | internal/filterexpr/query.go:219-229 | blanks separate, parentheses stand for themselves |
| QueryRead.QuotedRead | internal/filterexpr/query.go:230-243 | what stands in quotes is a term whatever it spells; an empty or unclosed quotation is an error |
| QueryText.TokensWritable | internal/filterexpr/query.go:230-255 | no token carries an empty text or one with a quote |
| QueryText.RenderTokens | internal/filterexpr/query.go:198-260 | any tokens without quotes, written out with keywords and special terms quoted, are read back unchanged |
| QueryParse.Parser.ParseOr | internal/filterexpr/query.go:281-302 | consumes what the grammar says, to the same tree or error, and makes progress |
| QueryParse.Parser.ParseAnd | internal/filterexpr/query.go:316-351 | the same one level down, with adjacency meaning AND |
| QueryParse.Parser.ParseNot | internal/filterexpr/query.go:353-364 | the same for negation |
| QueryParse.Parser.ParsePrimary | internal/filterexpr/query.go:366-390 | the same for terms and parentheses |
| QueryParse.ParseQuery | internal/filterexpr/query.go:160-178 | the tree or the error of the whole text |
| QueryGrammar.ParseExactly | internal/filterexpr/query.go:132-178 | a text has a tree exactly if the grammar, given as rules without a parser, lets its tokens spell it |
| QueryGrammar.GrammarExactly | internal/filterexpr/query.go:281-390 | the parser accepts tokens with a tree exactly if they spell that tree by the rules |
| QueryGrammar.ErrorsTell | internal/filterexpr/query.go:281-390 | which error a superfluous or missing parenthesis, an operator at the end and one in the place of an operand give |
| QueryGrammar.LeftOverTells | internal/filterexpr/query.go:160-178 | tokens left over are named |
| QueryParse.ParseShow | internal/filterexpr/query.go:132-178 | parsing inverts the printer, with AND spelled out or left implicit |
| QueryParse.CanonicalSpelling | internal/filterexpr/query.go:132-178 | whatever parses can be printed, and the print parses to the same tree |
| QueryMinimal.WriteOpens | internal/filterexpr/query.go:281-390 | the printer opens exactly the parentheses that the precedences call for |
| QueryMinimal.FewestParentheses | internal/filterexpr/query.go:281-390 | no token list that parses to a tree has fewer parentheses than the one printed for it |
| QueryEval.LeafMatches | internal/filterexpr/query.go:29-36 | a term matches exactly if it stands in the message or in the source, letter by letter in either case |
| QueryEval.ConnectivesMatch | internal/filterexpr/query.go:92-130 | what AND, OR, NAND, NOR and NOT make of the matches of their operands; no expression matches everything |
| QueryEval.NormalEquivalent | internal/filterexpr/query.go:92-130 | every query is equivalent to its negation normal form |
| QueryEval.NnfWitness | internal/filterexpr/query.go:37-46 | a match always rests on a positive term that occurs or a negative one that does not |
| QueryEval.MatchMonotone | internal/filterexpr/query.go:37-46 | making positive terms occur and negative ones vanish never loses a match |
| QueryEval.Collector.Collect | internal/filterexpr/query.go:57-79 | appends the positive literals of the normal form, skipping terms already listed up to case |
| QueryEval.PositiveTerms | internal/filterexpr/query.go:47-55 | exactly the positive literals of the normal form up to case, each once |
| QueryEval.MatchExplained | internal/filterexpr/query.go:24-46 | an entry that matches holds a highlighted term or lacks an excluded one |
| QueryEval.MatchEnsured | internal/filterexpr/query.go:24-46 | an entry that holds every highlighted term and no excluded one matches |
| QueryEval.AddNewLists | internal/filterexpr/query.go:37-39 | removing repetitions up to case loses none |
| QueryEval.AddNewExactly | internal/filterexpr/query.go:57-72 | a term goes to the end of the list unless the list has it up to case |
| Firewall.MatchesExactly | internal/firewall/overlap.go:36-58 | the packets a rule is for: those that agree with every part it names; an address that cannot be read matches none |
| Firewall.InNetExactly | internal/firewall/overlap.go:85-91 | a host is in a network exactly if the first bits of the two addresses agree, one by one |
| Firewall.PortExactly | internal/firewall/overlap.go:58-66 | ports 0 to 0 mean any port, otherwise the range is meant |
| Firewall.FoldExactly | internal/firewall/overlap.go:40 | protocols are compared letter by letter, in either case |
| Firewall.CidrSound | internal/firewall/overlap.go:73-91 | a covered prefix's addresses are all in the covering one |
| Firewall.EscapingHost | internal/firewall/overlap.go:73-91 | where the test fails there is an address in the second prefix outside the first |
| Firewall.EscapingSibling | internal/firewall/overlap.go:85-89 | that address when the first prefix is the longer one |
| Firewall.CoversSound | internal/firewall/overlap.go:36-66 | a covering rule matches every packet the covered one matches |
| Firewall.Escape | internal/firewall/overlap.go:39-66 | where covers fails, a packet that only the second rule matches |
| Firewall.CoversExactly | internal/firewall/overlap.go:36-66 | covers is set inclusion of packets, also for a first rule whose addresses could not be read, except for a rule spelling out every port |
| Firewall.AllPortsSpelledOut | internal/firewall/overlap.go:58-66 | a rule with ports 0 to 65535 matches all that one without ports does, is covered by it, and does not cover it |
| Firewall.MarkOne | internal/firewall/overlap.go:21-32 | marks one rule with the first rule in front of it that covers it, if any |
| Firewall.AnnotateShadows | internal/firewall/overlap.go:15-34 | a copy in which each rule is marked so, all else unchanged |
| Firewall.MarkedIffShadowed | internal/firewall/overlap.go:8-14 | marked exactly when a rule of the same direction and a smaller order covers it |
| Firewall.MarkNamesFirst | internal/firewall/overlap.go:21-32 | the mark is the order and the action of the first such rule in the list, and nothing else about the rule changes |
| Firewall.MarkedNeverDecides | internal/firewall/overlap.go:8-14 | a marked rule never decides a packet |
| Firewall.DeletingShadowedIsSafe | internal/firewall/overlap.go:8-34 | deleting all marked rules at once never changes which remaining rule decides a packet |
| Firewall.DeciderIsKept | internal/firewall/overlap.go:8-34 | and the rule that decided before is among those that remain |
| Firewall.Simulate | internal/firewall/simulate.go:24-50 | finds a rule exactly if one admits the request, and then the first by order |
| Firewall.AnswerBoundsDecision | internal/firewall/simulate.go:11-18 | every packet of a wider request is decided by some rule, which is the one returned or stands before it by order and then by position |
| Firewall.OnePacketSimulationExact | internal/firewall/simulate.go:11-18 | for a one-packet request the answer is exactly the first-match rule |
| CompareTrees.UnionSorted | internal/compare/tree.go:290-304 | every name of either side once, in order |
| CompareTrees.Walker.WalkInto | internal/compare/tree.go:143-190 | the recursive closure appends exactly the entries of the directory pair |
| CompareTrees.Walk | internal/compare/tree.go:120-194 | the entries in order, and statistics that are their histogram |
| CompareTrees.IdenticalIffSame | internal/compare/tree.go:93-107 | by hash and without read errors, all entries are identical exactly when the trees have the same names, kinds, sizes and digests, empty directories included |
| CompareTrees.SwapWalk | internal/compare/tree.go:120-236 | swapping the arguments gives the same paths in the same order with the sides exchanged; to the last field exactly when no path fails on both sides |
| CompareTrees.BothSidesFail | internal/compare/tree.go:143-160 | two directories that can both not be listed: each comparison blames its own first side |
| CompareVerdicts.EveryEntryDue | internal/compare/tree.go:93-236 | every entry stands for a path reached through directories on both sides, with the verdict, kind, sizes, times, note and error that what stands there on either side calls for |
| CompareVerdicts.EveryPathReported | internal/compare/tree.go:93-190 | every path that must be reported has such an entry |
| CompareVerdicts.EntriesInOrder | internal/compare/tree.go:140-190 | the entries belong to different paths, in the order of a walk: by name, each directory's own together |
| CompareVerdicts.PathTextSpelled | internal/compare/tree.go:160-164 | an entry's path is its names with slashes in between |
| Sorting.LessExactly | internal/compare/tree.go:290-304 | names are ordered by the first character that differs, the shorter first if none does |
| Labels.UnderExactly | internal/filelabels/filelabels.go:239-243 | a path is under a root when it is the root or goes on behind a slash, and rehoming exchanges the root |
| Labels.LabelAssigned | internal/filelabels/filelabels.go:198-237 | what Get returns at every path after an assignment: the id at the paths given, where 0 is none, and the old label elsewhere |
| Labels.Store.SetMany | internal/filelabels/filelabels.go:219-237 | assigns or clears all paths; an id outside 0 to 9 changes nothing |
| Labels.Store.Rehome | internal/filelabels/filelabels.go:262-294 | for every visiting order, including visits to keys just put in, and for any two paths: the table is one that some order ends in; when no label is carried to a place at or below the old path, it is the one with all of them carried over; a change is reported exactly if there were any |
| Labels.RehomeExactly | internal/filelabels/filelabels.go:262-294 | whatever the order nothing is left under the old path, exactly when no label is carried to a place at or below it; then all orders end in the same table, and otherwise some order leaves a label behind |
| Labels.OrderMatters | internal/filelabels/filelabels.go:277-287 | a table and two orders of ranging over it, one of which loses a label |
| Labels.Store.Delete | internal/filelabels/filelabels.go:306-331 | for every visiting order, exactly the labels at and below the path go |
| Labels.RehomedExactly | internal/filelabels/filelabels.go:239-261 | nothing is left under the old path, every old label stands at the same place under the new one, all others are as they were |
| Labels.LabelAfter | internal/filelabels/filelabels.go:239-261 | the label of any path after a rehome |
| Labels.RoundTrip | internal/filelabels/filelabels.go:245-254 | there and back is the identity exactly when the new place carried no labels |
| Labels.RehomeComposes | internal/filelabels/filelabels.go:245-254 | two rehomes are one when the stop in between carried no labels |
| Trimming.TrimExactly | internal/config/settings.go:46 | trimming takes white space off both ends and nothing else |
| Trimming.SpaceExactly | internal/config/settings.go:46 | the characters that are white space |
| TextLines.JoinSplit | internal/config/settings.go:1582-1587 | splitting at line breaks and joining again gives the text |
| ConfigText.LinesRoundTrip | internal/config/settings.go:1564-1605 | lines written are the lines read back, except that no lines become one empty line |
| ConfigText.TextKept | internal/config/settings.go:1567-1605 | reading and writing back changes nothing but a missing final line break |
| ConfigText.LineExactly | internal/config/settings.go:46-57 | a trimmed line that is empty or begins with a number sign says nothing; without an equals sign, or with nothing before the first, it is malformed; any other assigns what follows to what precedes |
| ConfigText.SetsWhatIsRead | internal/config/settings.go:1482-1490 | an edit takes for an assignment of a key exactly the lines that parsing takes for one |
| ConfigText.ReadsOnlyKeys | internal/config/settings.go:46-57 | every key read is trimmed, not empty, without an equals sign and no comment |
| ConfigText.AssignmentReads | internal/config/settings.go:1480 | the line written for a key reads back as the key and the trimmed value exactly when the key is one |
| ConfigEdit.ParseLines | internal/config/settings.go:42-58 | the loop computes each key's last assignment and the malformed lines with their numbers |
| ConfigEdit.ValuesAreLast | internal/config/settings.go:57 | the last active assignment of a key counts |
| ConfigEdit.WarningsExactly | internal/config/settings.go:53-56 | a line is reported by its number exactly when it is malformed |
| ConfigEdit.SetInLines | internal/config/settings.go:1480-1497 | the first active assignment is replaced in place, or the line appended |
| ConfigEdit.UnsetInLines | internal/config/settings.go:1528-1543 | every active assignment of the key goes, and the result says whether there was one |
| ConfigEdit.SetThenRead | internal/config/settings.go:1466-1499 | what any key reads as after a set: the new value unless the key is assigned again further down |
| ConfigEdit.SetKeyEffect | internal/config/settings.go:1466-1499 | a set updates exactly that key, or, with several assignments, nothing |
| ConfigEdit.SetKeyExactly | internal/config/settings.go:1466-1499 | parsing after a set is the old parse updated at the key if and only if the key was assigned at most once or already had the value |
| ConfigEdit.SetKeyShadowed | internal/config/settings.go:1482-1490 | a file on which setting a key has no effect |
| ConfigEdit.UnsetKeyExactly | internal/config/settings.go:1511-1544 | parsing after an unset is the old parse without the key, however often it was assigned |
| ConfigEdit.OtherLinesKept | internal/config/settings.go:1466-1473 | a set keeps every line that does not assign the key, verbatim and in order |
| ConfigEdit.RemovedExactly | internal/config/settings.go:1501-1514 | an unset keeps every other line in its place |
| ConfigEdit.SetAfterUnset | internal/config/settings.go:1474-1544 | a set after an unset always takes effect |
| ConfigTiers.ConfigFile.WriteLines | internal/config/settings.go:1593-1622 | whichever of the steps fails, the temporary file, its lines, the close or the rename, at no point does the file hold anything but its old text or all of the new one; it succeeds if none fails, and then the temporary file is gone |
| ConfigTiers.ConfigFile.SetKey | internal/config/settings.go:1474-1499 | on success the file holds the edited lines, on failure it is unchanged; an unreadable file is a failure, a missing one becomes the one line; without a failing step any other succeeds |
| ConfigTiers.ConfigFile.UnsetKey | internal/config/settings.go:1522-1544 | on success the file is without the key, and not rewritten if it had none; an unreadable file is a failure, a missing one stays missing; without a failing step any other succeeds |
| ConfigTiers.ConfigFile.ParseFile | internal/config/settings.go:23-63 | the values and warnings; a missing file is an empty one, an unreadable one an error |
| ConfigTiers.SetSays | internal/config/settings.go:1474-1499 | what each key reads as in the file written by a set |
| ConfigTiers.UnsetSays | internal/config/settings.go:1522-1544 | what each key reads as in the file written by an unset |
| ConfigTiers.Merge | internal/config/origin.go:59-74 | every value of the file that can be read is overlaid with its origin; exactly the others are rejected, in order and each once, and leave everything as it was |
| ConfigTiers.LoadWithOrigins | internal/config/origin.go:51-78 | defaults, then the system file, then the user file; exactly the unreadable values of either are rejected |
| ConfigTiers.OriginExplains | internal/config/origin.go:41-50 | the effective value is that of the highest tier whose last assignment can be read, and the origin names that tier |
| ConfigTiers.ResetFallsBack | internal/config/settings.go:1505-1510 | after an unset in the user file the setting has the value and origin of the system-only merge, and no other setting changes |
| ConfigTiers.SetTakesEffect | internal/config/settings.go:1466-1499 | a set of a key assigned at most once is in force with origin user if it can be read, else the tier below shows through; no other setting changes |
| DiffRows.TakeRun | internal/compare/pairing.go:61-67 | the longest run of one kind from a place |
| DiffRows.PairUpChangedRun | internal/compare/pairing.go:75-100 | the i-th deletion beside the i-th insertion, the excess alone beside a blank side; the counters advance by the two lengths |
| DiffRows.PairUpLines | internal/compare/pairing.go:31-53 | the rows of a hunk, and counters advanced by the lines of each side |
| DiffRows.EditPaired | internal/compare/pairing.go:43-100 | wherever an edit stands in a hunk its i-th deletion is in one row with its i-th insertion, and a side that has no line left is blank |
| DiffRows.EqualPaired | internal/compare/pairing.go:34-42 | an unchanged line stands on both sides of its row |
| DiffRows.Columns | internal/compare/pairing.go:25-53 | the left column is the old side and the right column the new side: every line once, in order, numbered consecutively |
| DiffRows.UnchangedExactly | internal/compare/pairing.go:34-42 | the rows showing an unchanged line are exactly the unchanged lines, in order |
| DiffRows.NoGaps | internal/compare/pairing.go:31-53 | a hunk makes no gap rows, and has rows if it has lines |
| DiffText.HeaderPathExactly | internal/compare/unifieddiff.go:23 | a header `diff --git a/x b/p` gives the path p back exactly when p does not hold ` b/` |
| DiffText.HeaderExactly | internal/compare/unifieddiff.go:23 | the lines that are file headers with a path p: those of this form for some x, p not holding ` b/` |
| DiffText.MarkSpelled | internal/compare/unifieddiff.go:23 | what a path must not hold, written out |
| DiffText.QuotedHeaderMissed | internal/compare/unifieddiff.go:23 | a quoted path's header is not recognised |
| DiffText.HunkHeaderReads | internal/compare/unifieddiff.go:35 | a hunk header `@@ -l,n +r,m @@` gives its two line numbers back, with or without counts and whatever follows |
| DiffText.HunkExactly | internal/compare/unifieddiff.go:35 | the lines that are hunk headers are exactly those of the pattern |
| DiffText.DecimalSpelled | internal/compare/unifieddiff.go:95-96 | the numbers are decimal |
| DiffText.OpLineReads | internal/compare/unifieddiff.go:107-115 | a content line gives its operation back and is no header |
| DiffText.ContentExactly | internal/compare/unifieddiff.go:107-115 | the lines that are content are those that begin with a minus, a plus or a blank |
| DiffParse.Reader.FlushHunk | internal/compare/unifieddiff.go:68-77 | the collected hunk's rows join the last file, with a gap if it had rows |
| DiffParse.Reader.ReadLine | internal/compare/unifieddiff.go:79-115 | one line is one step of the reading state machine |
| DiffParse.ParseUnifiedDiff | internal/compare/unifieddiff.go:61-119 | the line loop computes what the state machine reaches |
| DiffParse.ReadsRendered | internal/compare/unifieddiff.go:37-61 | reading a rendered diff recovers every file and the rows of every hunk, numbered from its header |
| DiffParse.RoundTripExactly | internal/compare/unifieddiff.go:37-61 | and every path exactly when none holds ` b/` |
| DiffParse.GapsExactly | internal/compare/unifieddiff.go:54-60 | between consecutive hunks with lines of one file there is exactly one gap row, and no other |
| DiffParse.AnyTextWellGapped | internal/compare/unifieddiff.go:68-77 | for any text at all, no file's rows start or end with a gap or hold two in a row, and a gap is blank |
| DiffParse.FileColumns | internal/compare/unifieddiff.go:86-103 | a file's two columns are those of its hunks one after another, each numbered from its own header |

## Left out

- Refused renames are given as a list of verdicts, one per step, since their causes lie in the operating system. A folder is moved as a whole; a batch whose paths lie inside one another, and a rename onto another name of the same file, which the operating system takes for done, are not modelled.
- The renaming rules (regular expressions, case, dates, counters) and the stat data they read: each path's proposal is given. New names are single components.
- Temporary names are a supply of names that collide with nothing; the random suffix is not part of this model.
- The hash of the Merkle root is an arbitrary function to 32 bytes; paths and digests are bytes, the digest text having 64 characters. The walk, symbols and packages of the index are left out.
- FileCopy.Copy: requires that the overlap test is not misled (`FileTree.OverlapsExactly`), that a source inside the destination is merged and does not hold a directory that would land on it (`FileMove.MovedUpExactly`), and that no symbolic link stands on the way to the destination or where the source has a directory, because the original then works on a tree other than the one named. What the destination holds afterwards is stated for followed links that do not lead into the destination outside the source; with such links, for a source and a destination apart and no link at the destination, only what does not change is.
- FileMove.Move: requires the same, and that everything but the root stands in a directory, as in any file system. When it succeeds is stated one way only: whether the destination is on another file system, or an empty directory may be renamed onto, is left to the system.
- FileMove.MoveFollowingSymlinks: requires the same, and that followed links do not lead into the destination outside the source, since what they lead to may otherwise change before it is copied.
- Following links: what `filepath.EvalSymlinks` finds behind each link is a given table, and of `resolveExistingAncestor` only the case of a link at the destination itself is kept.
- Permissions, ownership, times, `StableSymlinks`, progress callbacks, and special files (a file is its content); cancellation of a copy is one of the failures.
- A replacing copy of a link to a directory merges instead of replacing, as in the original; the model keeps this and states no more about it.
- Paths are limited to a number of components (`Disk.maxPath`), which stands for the system's path limit and makes following links that lead into a parent end.
- Names compare by code point and listings are sorted that way.
- Commit graph: hashes are distinct and not empty, and children come before their parents, where a statement about a whole log needs it. The lane id of a run, and colours, are not specified.
- Lower-casing of search terms and rule protocols is that of the Latin letters A to Z (`Letters.LowerSpelled`).
- Firewall rules start from parsed networks; the text of an unreadable address is kept. Packets have ports 0 to 65535. A rule's mark before annotation is empty where a statement needs it. The parsers of the three backends are left out.
- Firewall.CoversExactly: requires a second rule that matches something, since a rule that matches nothing is included in every other.
- Tree comparison: trees do not change during the walk, an entry that cannot be examined counts as absent, and the digest of a file is given with it. Progress and cancellation are left out.
- Labels: paths are cleaned; saving and locking are left out.
- Configuration: a value is one line; how each setting reads its value is one function per key, as in the switch of `apply`; the line length limit of the scanner, and the texts of warnings, are left out.
- Diffs: numbers are unbounded, the two header patterns are written as functions, and `SideBySide`, whose differences come from another library, is left out.
- Archives, HTTP providers, key storage, trash, search ranking, metadata extraction, logging, subprocesses and the whole user interface.
