# Game of Trees, modelled and verified

Game of Trees (got) is a version control system for Git repositories. This
project models its algorithmic core in Dafny and proves what that core is for.
Code that changes things step by step is a method over arrays, sequences and
object fields, proved against a specification; the lemmas then say what the
specification means.

**Diff engine** (`diff_chunks`, `edit_distance`, `diff_state`, `myers`,
`divide_columns`, `myers_divide`, `diff_plan`, `diff_meaning`, `diff_driver`,
`diff_configs`). Files are numbered atoms and an
arbitrary relation `same`; nothing below needs it to be an equivalence. The
quadratic Myers search fills the columns of its matrix with furthest points of
the reference function `Dist`, the backtrace reuses cells 0 and 1 of each
column, and what comes out is a shortest script: N + M - 2 LCS edits. The
linear-space variant is followed cell by cell: both columns are functions of step and
diagonal, the midpoint is exactly their first meeting, and it lies within the steps
made. An even number of atoms always has one (up to 2048, where no effort limit
interferes). The driver solves every section completely for any nesting of inner and
fallback algorithms whose fallback chains end, and as the configurations say: there is
a plan that names, section by section, the algorithm that had to solve it, and what
the plan pairs is what the result pairs. From the plan follow the sum of the edits over
the sections, the pairs a divider settled, shortest scripts where Myers comes to solve
the whole (always up to 511 atoms with the configurations that start with it), and that
equal files have no edit.

**Three-way merge** (`diff3_changes`, `diff3_groups`, `diff3_lockstep`, `diff3`,
`diff3_script`, `diff3_misread`, `diff3_lists`). File 2 is the base; both change lists are against file 3.
`merge()` walks the two lists in step, joins and stretches overlapping changes,
and gathers edits. The proof carries three aligned files along and ends with hunks
that split all three. Which hunks these are is said of the lists as they were at
first: one for each group of changes that overlap or touch in file 3, directly or
through others, and only a group with changes of both lists can be a conflict. The
ed script is written last edit first and replayed on a list whose lines are
renumbered after every command; the result is the resolution of the hunks. The
change lists themselves are what the diff engine's script becomes when it is
written as a plain diff and read back; that list need not be true, so the walk, the
script and the replay are also followed over any lists in order.

**Ordered containers and sorting** (`rb_shape`, `rb_links`, `rb_colors`,
`rb_search`, `rbtree`; `stable_sorting`, `mergesort`). Red-black trees are nodes
with left, right, parent and colour fields on the heap, tied to a ghost tree. The
natural-run mergesort is proved to return the only stable sorted arrangement, for
every comparison that is a total preorder.

**Commit graph and its clients** (`commit_graph`, `ancestry`). The object store
is a finite map from ids to commits without cycles. The traversal keeps a set of
open branches, a set of traversed commits and a pending list. What it hands out, and in
which order, is fixed up to commits that are equally far from the start and of one
time.

**Blame** (`blame`). Line maps are composed through a chain of diffs made by the
diff engine above.

**imsg framing** (`bytes`, `imsg_codec`, `imsg_buffer`, `imsg`). A writer, a
stream and a reader; what the kernel answers to each write and read is an
argument, so a theorem about `Link.Run` covers every fragmentation. A descriptor
travels with a byte of the stream.

**Codecs** (`delta_stream`, `delta`, `base64`). Git's delta streams, and base64
as in section 4 of RFC 4648.

Four findings, each with the exact condition where there is one:

- A change with an empty side at the start of a file that is not empty is written
  with line 1 instead of 0 (lib/diff_output_edscript.c:44-49, 54-59) and read back
  one line too far down (lib/diff3.c:610-620). The list read back is a true change
  list exactly when there is no such change (`Diff3Lists.ReadBackIff`). What it does
  to merge(O,O,B) is proved for every script (`Diff3Lists.MergeScripts`,
  `Diff3Misread.TakenIff`): there is no overlap, and the merged file is B if and only
  if one of these holds.
  - The first change inserts lines before line 1 of a file O that is not empty, and
    all of them are the same as line 1 of O.
  - The first change deletes lines before line 1 of a file B that is not empty, and
    the next change does not begin behind line 1 of B.
  - The first change is neither, or there is none.

  Otherwise the inserted lines end up behind line 1, or line 1 of B is lost
  (`Diff3Misread.MisreadTaken`). `Diff3Lists.MergeAtTheStart` runs both: O = "a" and
  B = "x", "a" give "a", "x"; O = "x", "a", "y" and B = "a", "z" give "z" alone.
  merge(A,O,O) = A and merge(A,O,A) = A are not touched by this.
- The two searches of the divide variant do not always meet: an odd number of atoms
  none of which are equal, such as one against two, leaves the loop without a
  midpoint, and the fallback is asked for. So may some with equal atoms
  (`DivideColumns.OddMayMiss`). With an even number they always meet
  (`DivideColumns.EvenMeets`).
- The backward search of the divide variant prefers the upper cell on a tie
  (lib/diff_myers.c:570-572) although the lower one, less one, is further. Where its
  guard lets it choose, the cell ends where the further one leads if and only if there
  is no tie or the two atoms before it are equal (`DivideColumns.FurthestUnlessTied`).
  `DivideColumns.TieHappens` gives a column with a tie where they are not.

- The pending commits are said to be sorted by time (lib/commit_graph.c:88-91), but
  more are fetched only when a single one is left (lib/commit_graph.c:587-593). So when
  all parents are followed commits come by their distance from the start, and newest
  first only among those equally far (`Ancestries.Traverse`).

Where the code and its comments differ, the model follows the code:

- `permitted_state_size == 0` is documented as "no limitation"
  (lib/diff_main.h:220-221), but `diff_algo_myers` compares with it plainly, so 0
  always means the fallback (lib/diff_myers.c:1100-1105).
- The backward step of the divide variant compares `c - 1` with the right length
  where the mirror image of the forward step would use the left one
  (lib/diff_myers.c:571). Cells never written can be read; the model keeps this,
  and the proof shows that the negative values they hold never become points.
- The effort cut pairs x with the right length and y with the left one
  (lib/diff_myers.c:862-958), and is modelled so; the sum is the distance all the same.
- The pending list of the commit graph is sorted behind its head only: a node
  never goes before the head (lib/commit_graph.c:156-165).
- `b64_pton` without a target does not look at the bits beyond the last byte
  (compat/base64.c:301). Both behaviours are characterised exactly.

## Model

| member | source | states |
|---|---|---|
| DiffChunks.AppendKeepsScript | lib/diff_main.c:238-307 | Appending a chunk, whether it is joined, moved above a plus chunk or put last, keeps the list contiguous on both sides, without two neighbours of one type and without plus directly before minus; pairs and edits grow by exactly the chunk's. |
| DiffChunks.TilingNamesEveryAtom | lib/diff_internal.h:60-92 | The left parts of a contiguous chunk list, concatenated, are all left atoms of the range in order, and the right parts all right atoms. |
| DiffChunks.EditsCountUnpaired | lib/diff_internal.h:60-92 | Every atom of both sides is either paired once or counted as one deletion or insertion. |
| DiffChunks.PairsAreCommonSubsequence | lib/diff_internal.h:60-92 | The pairs of SAME chunks are strictly increasing on both sides, within the section and equal. |
| DiffChunks.AppendAbovePlusAddsPairs | lib/diff_main.c:258-299 | Moving a minus chunk above a plus chunk leaves the pairs as they were and adds just the chunk's own edits. |
| EditDistance.EntryWithinReach | lib/diff_myers.c:1195-1219 | Stepping from k - 1 or k + 1 by the code's rule reaches as far as any path with one more edit, although cells outside the band are missing. |
| EditDistance.SlideEndsFurthest | lib/diff_myers.c:1222-1236 | After the slide the cell holds the furthest point of its diagonal within d edits. |
| EditDistance.CornerIsReached | lib/diff_myers.c:1238-1250 | If the corner is within d edits and not within fewer, step d stops exactly there; points beyond the grid never hide it. |
| EditDistance.DistBoundsSubsequences | lib/diff_myers.c:1071-1080 | No common subsequence leaves fewer unpaired atoms than the distance. |
| EditDistance.SlideDown | lib/diff_myers.c:300-311 | The inner loop of both forward passes ends at the first pair that differs or at the border. |
| DiffStates.AddSolvedChunk | lib/diff_main.c:216-309 | The list becomes the one with the chunk appended by the rules above, and both assertions of the C code hold. |
| DiffStates.AddChunk | lib/diff_main.c:316-352 | Unsolved chunks, and all chunks after the first of them, wait in the intermediate result; others are appended. |
| DiffStates.Cover | lib/diff_main.c:316-352 | A chunk at the end of what is covered extends the covered part by that chunk, keeping the finished script and the waiting chunks valid. |
| Myers.ForwardCell | lib/diff_myers.c:1158-1236 | A cell of column d gets the furthest point on diagonal k within d edits. |
| Myers.ForwardColumn | lib/diff_myers.c:1135-1247 | A whole column does, unless the corner is met, and diagonals outside the grid are not needed. |
| Myers.Search | lib/diff_myers.c:1132-1251 | The forward pass always reaches the corner, at step Dist(N, M). |
| Myers.BacktraceAgrees | lib/diff_myers.c:1276-1328 | The backtrace asks a different question than the forward pass did and always gets the same answer; where it goes is inside the grid. |
| Myers.CellsBefore | lib/diff_myers.c:1276-1328 | The cell the backtrace goes to is on the grid, one edit and a slide before the current point. |
| Myers.BacktrackColumn | lib/diff_myers.c:1276-1328 | One round keeps the point in cells 0 and 1 of its column, touches no other column, and extends the trace by one step. |
| Myers.Backtrack | lib/diff_myers.c:1276-1329 | In the end cells 0 and 1 of the columns hold a path from the origin to the corner with one edit per column. |
| Myers.EmitSection | lib/diff_myers.c:1344-1413 | A section is one edit and a slide, and becomes chunks with at most one edit; the "numbers are making no sense" branch is unreachable. |
| Myers.EmitTrace | lib/diff_myers.c:1331-1417 | The recorded chunks are a script of the whole section with as many edits as columns after the first. |
| Myers.DiffAlgoMyers | lib/diff_myers.c:1074-1424 | It falls back exactly when the state is larger than permitted, changing nothing; otherwise the script it appends has Dist(N, M) edits, and its pairs are a common subsequence of the section. |
| DivideColumns.FrontIsFurthest | lib/diff_myers.c:236-312 | The forward cell of every step and diagonal is the furthest point that many edits reach, and there is none outside the grid. |
| DivideColumns.BackIsPath | lib/diff_myers.c:536-624 | A backward cell that is a point of the grid is a real one: no more edits than the step lead from it, and from where it came, to the end; poisoned cells never become points. |
| DivideColumns.ForwardReached | lib/diff_myers.c:445-480 | The box of a forward meeting is a slide or a single edit in the grid, starts within d edits of the start and ends at the furthest point of its diagonal. |
| DivideColumns.BackwardReached | lib/diff_myers.c:736-770 | The box of a backward meeting is a slide or a single edit in the grid, starts within d edits of the start, and its end is within d edits of the end. |
| MyersDivide.ForwardCell | lib/diff_myers.c:236-312 | The array gets the forward cell of step and diagonal, entered where its neighbours say. |
| MyersDivide.ForwardStep | lib/diff_myers.c:211-485 | It answers the topmost meeting of the step with its box, or that there is none, and then the array holds the whole column. |
| MyersDivide.BackwardCell | lib/diff_myers.c:536-624 | The same for a backward cell, with the guard on `c - 1` as written. |
| MyersDivide.BackwardStep | lib/diff_myers.c:509-774 | The same for a backward step. |
| DivideColumns.OuterMoves | lib/diff_myers.c:536-624 | With an even number of atoms the outermost backward cell meets the forward column when it gets to the border, or else in the last step. |
| DivideColumns.EvenMeets | lib/diff_myers.c:806-844 | With an even number of atoms the columns meet by the last step. |
| DivideColumns.StraightCell | lib/diff_myers.c:536-624 | Without equal atoms a backward cell that cells never written cannot spoil is exactly d edits from the end, whichever neighbour it came from. |
| DivideColumns.FurthestUnlessTied | lib/diff_myers.c:556-617 | Where the guard lets it choose, a backward cell ends where the further one of its two entries leads, unless they come from the same x and the two atoms before it differ; then it falls short. |
| DivideColumns.TieHappens | lib/diff_myers.c:536-624 | In the backward column of "p", "q", "r" against "s", "r", "t", step 2, diagonal 0 stays at 2, although two edits lead from 1 to the end as well. |
| DivideColumns.OddMayMiss | lib/diff_myers.c:806-844 | "a", "a", "a", "a", "b" against "b", "c" have an equal pair and no midpoint. |
| DivideColumns.SearchedMeans | lib/diff_myers.c:806-959 | Whatever the search has to answer, a midpoint that is no cut lies within the steps made, a cut is the furthest point of its diagonal or that close to the end, and it needs more than 2048 atoms. |
| MyersDivide.ShiftSqrt | lib/diff_myers.c:776-784 | The answer is a power of two, more than the square root and at most twice it. |
| MyersDivide.EffortCut | lib/diff_myers.c:862-958 | The cut is a point of one of the two columns, no point of either has got further, and it is taken exactly when it lies on the grid. |
| MyersDivide.FindMidpoint | lib/diff_myers.c:806-959 | The answer is the first meeting of the columns if it comes before the effort is spent, else a cut after just one step more than the permitted effort, else nothing. The midpoint starts within the d steps made; with an even number of atoms it ends within d edits of the end, with an odd number at the furthest point of its diagonal. It is found whenever the number of atoms is even and at most 2048, not when it is odd and no atoms are equal, and over equal sides it is the whole section. |
| MyersDivide.DiffAlgoMyersDivide | lib/diff_myers.c:791-1069 | Exactly the section before that midpoint, the midpoint and the section after it are added; up to 2048 atoms every unsolved section has fewer atoms than the input, an even number of atoms is always divided, and an odd number without equal atoms never is. |
| DiffDriver.EqualEnds | lib/diff_main.c:436-463 | The two runs found are equal, do not overlap, and cannot be longer. |
| DiffDriver.DiffAlgoNone | lib/diff_main.c:417-503 | The section is covered completely, and exactly the longest equal run at its start and, of the rest, at its end is paired. |
| DiffDriver.RunImpl | lib/diff_main.c:522-539 | Whatever the algorithm, it either changes nothing, asks for the fallback and must, or solves the section, or leaves exactly the chunks it divides the section into. |
| DiffDriver.RunAlgo | lib/diff_main.c:505-576 | For every nesting of inner and fallback algorithms and every depth and state limit the section is solved completely, nothing is left waiting, and what is paired is what a plan pairs that gives each section to the algorithm the configurations name; it terminates when fallback chains end. |
| DiffDriver.SolveWaiting | lib/diff_main.c:541-575 | Every waiting chunk that is unsolved is solved by the inner algorithm one level deeper, in order, and the others are appended. |
| DiffDriver.SolveChunk | lib/diff_main.c:546-569 | An unsolved chunk becomes a section of its own for the inner algorithm. |
| DiffDriver.DiffMain | lib/diff_main.c:592-621 | The result is a complete script of both files, found as the configurations say; with Dist(N, M) edits when Myers comes to solve it whole, with every pair of the chunks that the divider asked first settles, and without an edit when the files are equal. |
| DiffMeaning.PartsAddUp | lib/diff_main.c:541-575 | The edits of a divided section are the sum of those of its parts. |
| DiffMeaning.SolvedByMyers | lib/diff_main.c:522-539 | A section that comes to Myers, itself or by fallbacks, gets a longest common subsequence. |
| DiffMeaning.DividedForMyers | lib/diff_main.c:541-575 | If Myers comes to solve every section a division left, the edits are those of its solved chunks and the distances of these sections. |
| DiffMeaning.PartsKept | lib/diff_main.c:541-575 | All pairs of chunks solved at once, and of the plans for the others, are paired in the end. |
| DiffMeaning.EqualUnedited | lib/diff_main.c:505-576 | A section that is equal on both sides has no edit, whatever the nesting. |
| DiffDriver.NoScriptIsShorter | lib/diff_myers.c:1071-1080 | No complete script of a section, however found, has fewer edits than Dist. |
| DiffDriver.ShortestPairsLcs | lib/diff_myers.c:1071-1080 | A script with Dist edits pairs a longest common subsequence, and edits = N + M - 2 LCS. |
| DiffDriver.ScriptIsComplete | lib/diff_main.c:592-621 | A result names every left and every right atom once and in order, pairs equal ones only, and obeys the ordering rules for neighbours. |
| DiffConfigs.PermittedIs511Atoms | lib/diffreg.c:40-51 | The permitted 4 MiB of state are enough exactly up to 511 atoms on both sides together. |
| DiffConfigs.DiffShipped | lib/diffreg.c:35-85 | Every shipped configuration yields a complete script, found as it says, and those that start with Myers a shortest one up to 511 atoms, empty files included. |
| DiffConfigs.ShippedDivided | lib/diffreg.c:35-85 | Beyond 511 atoms without patience: if the search finds no midpoint just the equal ends are paired; if it leaves two sections of at most 511 atoms, the edits are the midpoint's and the distances of both. |
| Diff3Changes.LowerKeepsSide | lib/diff3.c:778-784 | Stretching a change down over agreeing lines keeps its list a true correspondence with file 3. |
| Diff3Changes.RaiseKeepsSide | lib/diff3.c:785-791 | So does stretching it up, with a mark when it now reaches the next change. |
| Diff3Groups.FirstAlone | lib/diff3.c:725-730 | A change skipped as peculiar to file 1 is a group of its own: it is as it was in the list, and no other change of either list touches it. |
| Diff3Groups.SecondAlone | lib/diff3.c:732-736 | The same for a change of the second list. |
| Diff3Groups.GroupComplete | lib/diff3.c:756-772 | When both ranges coincide and reach no further change, the changes collected are exactly one connected group, and each side's range is what the group's lines were in its file. |
| Diff3Groups.FirstJoined | lib/diff3.c:738-747 | Joining a change with the next one it reaches adds that one to the group and leaves no line uncovered. |
| Diff3Groups.BothStretched | lib/diff3.c:774-791 | Stretching two changes that touch keeps them the group collected so far. |
| Diff3Groups.MixedGroupTouches | lib/diff3.c:774-777 | A group with changes of both lists has one of each that touch. |
| Diff3.StretchBoth | lib/diff3.c:774-791 | After stretching, the two changes cover the same range of file 3 and both lists still correspond. |
| Diff3.SkipFirst | lib/diff3.c:725-730 | Over a change peculiar to file 1, files 2 and 3 hold the same lines. |
| Diff3.SkipSecond | lib/diff3.c:732-736 | Over a change peculiar to file 2, files 1 and 3 hold the same lines. |
| Diff3.Coincide | lib/diff3.c:756-772 | Changes over the same range of file 3 are aligned pieces of all three files, with equal lines before them. |
| Diff3.Diff3State.Duplicate | lib/diff3.c:848-920 | For ranges that are in the files and not yet passed, it answers whether they hold the same lines; otherwise the remembered base lines are those up to the first that differs, and none if the ranges are not equally long. For any others it may read past the end of a file, and fails then. |
| Diff3.Diff3State.GatherEdit | lib/diff3.c:935-963 | The text position, accumulated from what was skipped, is the position of the change in file 3. |
| Diff3.Diff3State.Stretch | lib/diff3.c:774-791 | Both changes become the ones that cover the union of their ranges. |
| Diff3.CompareLines | lib/diff3.c:883-914 | The comparison ends at the first line that differs or is missing, and succeeds exactly if there is none. |
| Diff3.Diff3State.MergeOverlap | lib/diff3.c:738-791 | Joining, editing or stretching keeps the three files aligned, the lists in order and equal lists in step, and leaves less work. |
| Diff3.Diff3State.Merge | lib/diff3.c:709-795 | The walk over any lists in order ends. Over true ones its hunks split all three files, one for each group of the original lists in order with stable lines around them; a group of one list keeps file 1, a group of both takes file 3 where files 1 and 2 are alike and is a conflict otherwise, shown with the base up to the first line that differs if file 1 has as many lines; splicing the gathered edits into file 1 resolves them. With one list empty no edit is gathered. With the same list twice, and files 1 and 2 alike, every change of it is taken over, the first one joined with the second if it reaches it. |
| Diff3.ConflictsAreMixed | lib/diff3.c:756-772 | There is no conflict exactly when every group with changes of both lists has the same lines in files 1 and 2. |
| Diff3.ConflictTouches | lib/diff3.c:774-777 | A conflict has a change of file 1 and one of file 2 that touch. |
| Diff3Script.WriteEdit | lib/diff3.c:800-824 | One edit is written as one change command, or as two for a conflict. |
| Diff3Script.EdScript | lib/diff3.c:966-1053 | The script holds the commands of all edits, the last edit first. |
| Diff3Script.LineList.Execute | lib/diff3.c:506-564 | Moving the cursor, removing and inserting changes the lines exactly as the command means, and leaves the dummy head. |
| Diff3Script.LineList.EdPatchLines | lib/diff3.c:457-568 | Replaying any commands fails exactly when it comes to one that starts beyond the end; otherwise the list is what the commands give, each on the lines as renumbered. |
| Diff3Script.EditApplied | lib/diff3.c:966-1053 | Whatever the rest of the list, the commands of one edit replace just its lines, for a conflict by marked text that holds file 1's and file 3's lines in full. |
| Diff3Script.ReplayIsSplice | lib/diff3.c:457-568 | Replaying the script bottom up with renumbering is one left-to-right splice of all edits. |
| Diff3Lockstep.LockstepMoves | lib/diff3.c:715-791 | Over one list twice every round finds two changes that touch; one that reaches the next is joined in the first list and then in the second, and otherwise the two are the same. |
| Diff3Lockstep.PatchIsTheOther | lib/diff3.c:966-1053 | Taking over all changes of a true list from the one file gives the other. |
| Diff3Script.GatheredReplays | lib/diff3.c:966-1053 | Replaying a script whose edits take over a list of changes from file 3 patches file 1 with just these. |
| Diff3Script.MergeRule | lib/diff3.c:725-772 | For every group: changed in file 1 only, the other two are alike and file 1 is kept; changed in file 2 only, files 1 and 3 are alike and kept; changed in both lists, file 3 is taken if files 1 and 2 are alike and all are shown otherwise. |
| Diff3Script.MergeFiles | lib/diff3.c:355-402 | Over true lists the merged file is the resolution of the groups' hunks; overlaps are counted as conflicts, and there are none exactly when groups of both lists have the same lines in files 1 and 2, so none at all when no changes touch. With one list empty the output is file 1, whatever is in the other. With the same list twice and files 1 and 2 alike it is file 1 patched with that list, its first change joined with the second if it reaches it, and so file 3 if the list is true. |
| Diff3Lists.ScriptIsChangeList | lib/diff_output_edscript.c:144-185 | A complete script of two files, its adjacent minus and plus chunks taken together, is a true change list. |
| Diff3Lists.OutputEdscriptChunk | lib/diff_output_edscript.c:31-104 | A header, read back, gives the change's line numbers, but one line too far down on a side that is empty at the start of a file that is not; its letter says whether lines were added, deleted or changed. |
| Diff3Lists.DiffOutputEdscript | lib/diff_output_edscript.c:106-186 | Joining chunks that touch gives one header for each run of minus and plus chunks, none lost and none split. |
| Diff3Lists.ReadIn | lib/diff3.c:576-636 | Each header is read as the change its numbers and its kind mean. |
| Diff3Lists.ReadBackIff | lib/diff3.c:576-636 | The list read back is a true change list exactly when no change has an empty side at the start of a file that is not empty, and then it is the script's. |
| Diff3Lists.ReadChanges | lib/diff3.c:198-253 | Written and read back, a script gives its own changes, but for a first change read too far down. |
| Diff3Misread.ReadInOrder | lib/diff3.c:576-636 | Read too far down or not, the changes are in order and within both files, and none but the first can reach the next one. |
| Diff3Misread.MisreadTaken | lib/diff3.c:709-795 | Taken over as read, lines inserted at the start go behind line 1; a deletion at the start with a change behind line 1 of the new file loses that line; all else gives file 3. |
| Diff3Misread.TakenIff | lib/diff3.c:709-795 | The result is file 3 exactly if the lines inserted at the start are all the same as line 1, or no change follows line 1 behind a deletion at the start. |
| Diff3Lists.MergeScripts | lib/diff3.c:259-407 | From any two scripts on: with no change empty at the start of a file, the merge is by the groups of the scripts' changes; with a script that has no change it is file 1; with the same script twice and files 1 and 2 alike there is no overlap, and the output is file 3 if and only if the changes as read add up. |
| Diff3Lists.MergeVersions | lib/diff3.c:198-407 | The same from the three files on: both scripts are what the diff engine must find with the given configuration, shortest where it comes to Myers and with all that its divider settles; and merge(A,O,O) = A and merge(A,O,A) = A without overlaps, whatever the lists, if dividers pair an equal section as it stands. |
| Diff3Lists.InsertedAtTheStart | lib/diff_output_edscript.c:44-49 | "x" inserted before "a" is read back as inserted behind it. |
| Diff3Lists.DeletedAtTheStart | lib/diff_output_edscript.c:54-59 | "x" deleted before "a", and "y" behind it changed to "z", is read back as 1d1 at line 2 of the new file, where the other change begins. |
| Diff3Lists.MergeAtTheStart | lib/diff3.c:709-795 | What the whole merge, from the scripts on, then makes of both: "a", "x" instead of "x", "a", and "z" instead of "a", "z". |
| CommitGraphs.CommitGraph.AddNodeToIterList | lib/commit_graph.c:148-166 | The node goes before the first node behind the head that is not newer. |
| CommitGraphs.InsertKeepsOrder | lib/commit_graph.c:148-166 | That keeps the list newest first behind its head. |
| CommitGraphs.CommitGraph.AdvanceToAllParents | lib/commit_graph.c:252-262 | One tip processed: the frontier holds without it, and open and traversed sets stay disjoint. |
| CommitGraphs.CommitGraph.AdvanceToFirstParent | lib/commit_graph.c:263-286 | In first-parent mode the only open commit is replaced by its first parent. |
| CommitGraphs.CommitGraph.FetchCommitsFromOpenBranches | lib/commit_graph.c:449-521 | A fetch keeps the whole invariant, distances and order included, traverses at least one new commit when something is open, and never displaces the head. |
| CommitGraphs.CommitGraph.IterStart | lib/commit_graph.c:535-569 | Starting is refused when busy, fails when the commit is missing, and otherwise leaves something pending and nothing handed out. |
| CommitGraphs.CommitGraph.IterNext | lib/commit_graph.c:571-598 | Completion is reported exactly when nothing is pending, and then nothing is open; otherwise the head of the pending list is handed out and the invariant holds. |
| CommitGraphs.LevelFetched | lib/commit_graph.c:449-521 | A fetch takes one more parent step away from the start: the traversed commits are all within it, and the open ones those just beyond. |
| CommitGraphs.FetchKeepsOrder | lib/commit_graph.c:449-521 | Listing all open commits behind at most one node keeps what is handed out and pending in order of distance, and of time among those equally far. |
| Ancestries.HandedOutAll | lib/commit_graph.c:571-598 | Following all parents, when nothing is pending each reachable commit has been handed out exactly once and nothing else. |
| Ancestries.Traverse | lib/commit_graph.c:571-598 | A whole traversal of "/" completes, and hands out the first-parent chain in order, or, beginning with the start, every reachable commit exactly once: nearest the start first, and newest first among those equally far. |
| Ancestries.ChainsMerge | lib/commit_graph.c:634-697 | Once two first-parent chains share a commit they go on alike. |
| Ancestries.MeetingIsNearest | lib/commit_graph.c:634-697 | A shared commit with nothing shared earlier is the nearest shared one on both chains. |
| Ancestries.See | lib/commit_graph.c:665-690 | A commit seen before on either chain is the nearest shared one; otherwise still none is shared. |
| Ancestries.FindYoungestCommonAncestor | lib/commit_graph.c:600-705 | It returns the nearest commit of both first-parent chains and fails with GOT_ERR_ANCESTRY exactly when they share none. |
| Ancestries.CheckLinearAncestry | got/got.c:2525-2568 | It accepts exactly when the base is on the commit's first-parent chain or, unless in forward-only mode, the commit on the base's. |
| Ancestries.CheckSameBranch | got/got.c:2570-2628 | It accepts exactly the branch head, the youngest common ancestor, and the commits of the branch above that ancestor. |
| Ancestries.CollectCommits | got/got.c:7546-7594 | It succeeds exactly when the stop commit is on the chain, and the commits are those from the branch head down to but excluding it, oldest first; started at the head's first parent, they are a segment of the head's own chain. |
| Blames.CarriedMapFollowsPairs | lib/blame.c:115-168 | A line of the older version has an entry exactly when the diff pairs it with a line of the newer version that has one, and it is that entry. |
| Blames.ChunkWork | lib/blame.c:142-164 | What one chunk says about the next lines of both versions: alike, only in the older, or only in the newer. |
| Blames.Blame.AnnotateLine | lib/blame.c:91-112 | The callback fires once for a valid line that was not annotated, and never again for it. |
| Blames.Blame.BlameChunk | lib/blame.c:142-164 | One chunk carries its part of the map and annotates just the lines its insertions stand for. |
| Blames.Blame.BlameChanges | lib/blame.c:114-168 | The lines newly annotated are ones the newer version inserted. Unless all lines are annotated by then, the new map is increasing, points at equal lines of the blamed version, and the lines not yet annotated are exactly those it still maps. |
| Blames.Blame.BlameCommit | lib/blame.c:199-277 | The same with the diff the diff engine must find in the given configuration, shortest where it comes to Myers and with all that its divider settles. |
| Blames.Blame.AnnotateRemaining | lib/blame.c:612-619 | The open lines, and only they, get the last commit. |
| Blames.BlameOpen | lib/blame.c:568-619 | Every line is annotated with a version in which it stands, by the composed maps, and which the next older version does not have or which is the oldest; the callback fires exactly once per line with its commit. Every diff is the one the engine must find, and an empty last line is not blamed. |
| Blames.OlderIsPaired | lib/blame.c:142-164 | A line that stands in the older version stands in the newer one, and was not added there. |
| Blames.BlamedOnTheOne | lib/blame.c:568-619 | Just one version introduced a line: the line stands in the versions up to that one and in none before, and that one's commit is blamed. |
| ImsgCodec.DecodeAllBack | compat/imsg.c:123-163 | Decoding undoes encoding for any list of messages with their descriptors. |
| ImsgCodec.DecodePart | compat/imsg.c:133-145 | A proper prefix of a message is never decoded, and is shorter than the largest message. |
| ImsgCodec.MessageLayout | compat/imsg.h:68-74 | Type, length, flags, peer and process, 32, 16, 16, 32 and 32 bits wide, low bytes first, and then the data. |
| ImsgCodec.ComposeInFlight | compat/imsg.c:165-182 | A new message joins what is in flight at the end, with its descriptor at its first byte. |
| ImsgCodec.ReceiveNoLater | compat/imsg.c:47-121 | Receiving bytes and the descriptors that came with them makes no descriptor later. |
| ImsgCodec.TakeInFlight | compat/imsg.c:123-163 | When the first pending message has arrived in full, its own descriptor is first in the queue, and the rest stays in flight. |
| ImsgBuffer.Ibuf.Realloc | compat/imsg-buffer.c:70-88 | It fails exactly when the maximum would be exceeded, and what was written stays. |
| ImsgBuffer.Ibuf.Add | compat/imsg-buffer.c:90-100 | Data is appended exactly when it fits the maximum; otherwise nothing changes. |
| ImsgBuffer.IbufDynamic | compat/imsg-buffer.c:53-68 | An empty buffer without a descriptor, unless the maximum is below the length. |
| ImsgBuffer.Msgbuf.Enqueue | compat/imsg-buffer.c:292-297 | The buffer is last in the queue. |
| ImsgBuffer.Msgbuf.Dequeue | compat/imsg-buffer.c:299-309 | The first buffer leaves, the others stay as they are. |
| ImsgBuffer.Msgbuf.Drain | compat/imsg-buffer.c:197-213 | Exactly n bytes leave the front of the queue, whole buffers with them. |
| ImsgBuffer.Msgbuf.Write | compat/imsg-buffer.c:224-290 | The bytes taken leave the queue, and with the first of them goes the first descriptor, if its buffer is at hand. |
| ImsgBuffer.WireDrained | compat/imsg-buffer.c:197-213 | Draining bytes to which no descriptor is tied removes just those. |
| ImsgBuffer.WriteNoLater | compat/imsg-buffer.c:224-290 | What a partial write sent and what it left hold the same bytes and the same descriptors in order, none with a later byte than before. |
| Imsgs.Imsgbuf.Create | compat/imsg.c:209-234 | It fails exactly when the 16-bit sum of lengths exceeds the maximum; otherwise the buffer holds the header. |
| Imsgs.Imsgbuf.Close | compat/imsg.c:247-261 | Length and flag are put into the header already written, and the buffer is queued. |
| Imsgs.Imsgbuf.Compose | compat/imsg.c:165-182 | It succeeds exactly when header and data fit a message, even where the 16-bit sum wraps; then the queue grows by the encoded message. |
| Imsgs.Imsgbuf.Read | compat/imsg.c:46-121 | The buffer grows by the bytes that came from the stream, the descriptor queue by the first descriptor that came with them, and nothing changes on an error. |
| Imsgs.Imsgbuf.GetFd | compat/imsg.c:269-283 | The oldest received descriptor, or -1. |
| Imsgs.Imsgbuf.Get | compat/imsg.c:123-163 | Shifting the buffer in place leaves just what follows the decoded message; an incomplete or malformed one changes nothing. |
| Imsgs.GetInFlight | compat/imsg.c:123-163 | While messages are in flight `imsg_get` never fails, answers the oldest one, and otherwise has less than one message in the buffer. |
| Imsgs.InFlightDecodes | compat/imsg.c:123-163 | All that is in flight, decoded, is exactly what is pending. |
| Imsgs.Link.GetStep | compat/imsg.c:123-163 | A reader that cannot yet decode a message has buffer room left, and if nothing is on its way nothing is pending. |
| Imsgs.Link.Run | compat/imsg.c:123-182 | After any run of composing, writing, reading and getting, with any partial writes and reads, the messages returned plus those decodable from buffer, stream and queue are the composed ones in order, each with its own descriptor. |
| DeltaStream.SizeBack | lib/delta.c:87-113 | A written size reads back, wherever it stands, if ten bytes are enough. |
| DeltaStream.InstrsBack | lib/delta.c:115-175 | Any list of instructions, in any choice of omitted zero operands, reads back. |
| DeltaStream.InstrIsCoded | lib/delta.c:115-175 | Every instruction that parses is an encoding of what it denotes. |
| DeltaStream.BitsAreMasks | lib/got_lib_delta.h:89-98 | An opcode is the sum of the masks of its bits, so each operand bit is where the format has it. |
| DeltaStream.FormatExamples | lib/got_lib_delta.h:55-101 | A size of two bytes, a copy with an operand for offset and for length, one without operands (64 KiB from offset zero), and an insertion, as bytes. |
| DeltaStream.ExpandIsPieces | lib/delta.c:268-312 | Executing succeeds exactly when all copies lie within the base, and yields the pieces one after the other. |
| DeltaStream.StreamDenotes | lib/delta.c:254-318 | A stream built from sizes and instructions denotes the concatenation of their pieces, exactly when there is one, all copies lie within the base and the declared size is the output's. |
| Deltas.NextDeltaByte | lib/delta.c:77-85 | It fails exactly at the last byte. |
| Deltas.ParseSize | lib/delta.c:87-113 | The loop reads exactly the size field, modulo 2^64, and fails exactly when it is cut short or longer than ten bytes. |
| Deltas.ParseDeltaSizes | lib/delta.c:219-237 | Both size fields, or the error of the first that is bad. |
| Deltas.ParseOpcode | lib/delta.c:115-175 | Offset and length are the ones the operand bytes denote, absent ones being zero and length zero 64 KiB; it fails exactly when operands are missing. |
| Deltas.CopyFromBase | lib/delta.c:177-200 | Block-wise copying appends the piece, or fails exactly when it leaves the base. |
| Deltas.CopyFromDelta | lib/delta.c:202-217 | The literal is appended, or nothing is when it is cut short. |
| Deltas.ApplyInMem | lib/delta.c:254-318 | It succeeds exactly when the stream denotes an output that fits; then the buffer holds it, and beyond the limit nothing is written. |
| Deltas.ApplyInstrs | lib/delta.c:345-387 | The instruction loop appends what the instructions denote, or fails exactly when they denote nothing. |
| Deltas.Apply | lib/delta.c:320-397 | It succeeds exactly when the stream denotes an output, and appends it; small failed results leave the file alone. |
| Deltas.BothAgree | lib/delta.c:254-397 | The in-memory and the file version succeed together, up to the size limit, with the same output. |
| Base64.DecodeBack | compat/base64.c:125-315 | Decoding an encoding gives the bytes back. |
| Base64.TestVectors | compat/base64.c:44-124 | The texts section 10 of RFC 4648 gives for f, fo, foo, foob, fooba and foobar. |
| Base64.FoldedText | compat/base64.c:204-208 | White space between digits and padding is dropped. |
| Base64.DecodedIsCanonical | compat/base64.c:295-303 | Text that decodes with a target is the encoding of its result. |
| Base64.StrictIffCanonical | compat/base64.c:189-315 | With a target, exactly the canonical texts decode (sections 3.5 and 4 of RFC 4648). |
| Base64.LooseIffAlmostCanonical | compat/base64.c:295-303 | Without a target a text decodes exactly when it would with the bits beyond the last byte cleared. |
| Base64.FindDigit | compat/base64.c:209-211 | The position in the table is the digit's value, and other characters have none. |
| Base64.B64Ntop | compat/base64.c:125-181 | The text and its terminator are written exactly when both fit. |
| Base64.Store | compat/base64.c:213-259 | Each digit adds its bits to the bytes in the target; it fails only when a byte, or non-zero bits of one, have no room. |
| Base64.Finish | compat/base64.c:262-314 | Padding, trailing white space and left-over bits are accepted exactly where decoding the rest says so. |
| Base64.B64Pton | compat/base64.c:189-315 | It succeeds exactly when the text without white space decodes and the bytes fit; then they are in the target. |
| StableSorting.StableSortIsUnique | compat/merge.c:93-98 | There is only one sorted arrangement that keeps equivalent elements in order. |
| StableSorting.SameOrderIsPermutation | compat/merge.c:93-98 | Keeping each class's elements in order makes the result a permutation. |
| StableSorting.ReversedKeepsOrder | compat/merge.c:240-249 | A strictly descending run may be reversed: sorted, and stable. |
| StableSorting.MergeSorts | compat/merge.c:139-216 | Merging two sorted runs gives a sorted one. |
| StableSorting.MergeKeepsOrder | compat/merge.c:139-216 | It keeps equivalent elements in order. |
| MergeSort.FindCut | compat/merge.c:149-186 | Linear, exponential or halving, the search finds the cut a linear scan finds. |
| MergeSort.Gallop | compat/merge.c:156-185 | The exponential search and the halving end with two neighbours around the cut. |
| MergeSort.MergeRuns | compat/merge.c:139-216 | Copying up to the cuts writes exactly the merge of the two runs, whatever `big` was. |
| MergeSort.Pass | compat/merge.c:130-218 | A pass turns k runs into (k + 1) / 2 sorted ones that tile the list, stably. |
| MergeSort.InsertionSort | compat/merge.c:325-343 | The part is sorted, stably, and the rest untouched. |
| MergeSort.Reverse | compat/merge.c:240-249 | Swapping inward leaves the part reversed and the rest untouched. |
| MergeSort.FindPairs | compat/merge.c:286-290 | The longest stretch of pairs with the same sense. |
| MergeSort.PairwiseRuns | compat/merge.c:291-296 | Every pair becomes a sorted run of its own. |
| MergeSort.NaturalRuns | compat/merge.c:297-314 | Runs of one sense, descending ones reversed, extend the tiling; the last may go on into the sorted tail. |
| MergeSort.Setup | compat/merge.c:257-323 | The list is tiled with sorted runs whose ends are linked, stably. |
| MergeSort.Sort | compat/merge.c:96-230 | For every total preorder the result is sorted and stable, in the array given; elements too small are refused. |
| RbShape.HeightBound | compat/tree.h:46-54 | Equal black height and no red under red bound the height by 2 lg (n + 1). |
| RbLinks.RotationFits | compat/tree.h:335-373 | The assignments of a rotation turn the links of one tree into those of the rotated tree, parents included. |
| RbLinks.RotatedTree | compat/tree.h:335-373 | A rotation anywhere keeps the order of the nodes. |
| RbColors.InsertRecolor | compat/tree.h:409-414 | Red uncle: after recolouring only the grandparent may be wrong. |
| RbColors.InsertFinish | compat/tree.h:421-422 | Black uncle: recolouring and one rotation restore all conditions. |
| RbColors.RemoveRecolor | compat/tree.h:457-463 | Black sibling without red children: the shortage moves to the parent. |
| RbColors.RemoveTurn | compat/tree.h:465-473 | A red inner child becomes the sibling with a red outer child. |
| RbColors.RemoveFinish | compat/tree.h:474-480 | A red outer child ends the shortage. |
| RedBlack.Head.RotateLeft | compat/tree.h:335-353 | The heap's tree becomes the rotated one, its nodes and order the same. |
| RedBlack.Head.RotateRight | compat/tree.h:355-373 | The mirror image. |
| RedBlack.Head.InsertColor | compat/tree.h:400-442 | From a tree with one red node possibly under a red one, all conditions are restored; nodes and order stay. |
| RedBlack.Head.RemoveRound | compat/tree.h:448-515 | One round moves the shortage up or ends it. |
| RedBlack.Head.RemoveColor | compat/tree.h:444-518 | From a tree with one subtree a black node short, all conditions are restored; nodes and order stay. |
| RedBlack.Head.Insert | compat/tree.h:587-616 | It returns the node with the same key, if any, and changes nothing; otherwise exactly the new node is added; in both cases the tree stays ordered, linked and balanced. |
| RedBlack.Head.TakeSuccessor | compat/tree.h:529-567 | The successor takes the node's place, fields and links; what remains is sound, or one subtree is short if the colour taken out was black. |
| RedBlack.Head.Remove | compat/tree.h:520-585 | Exactly the node given is removed, and the tree stays ordered, linked and balanced. |
| RedBlack.Head.Find | compat/tree.h:618-634 | The node with the key, or null exactly when there is none. |
| RedBlack.Head.NFind | compat/tree.h:636-655 | The node with the least key not below the one asked for. |
| RedBlack.Head.Next | compat/tree.h:657-677 | The next node in order, or null after the last. |
| RedBlack.Head.MinMax | compat/tree.h:701-714 | The first or the last node in order. |
| RedBlack.Head.Foreach | compat/tree.h:728-731 | Every node once, in ascending order. |
| RedBlack.Head.HeightIsLogarithmic | compat/tree.h:46-54 | A valid tree's height is at most 2 lg (n + 1), n being the number of its nodes. |

## Left out

- Files, mmap, sockets, memory allocation and cancel callbacks: byte sequences and parameters stand for them, and calls that only fail for lack of memory succeed.
- One C function is often several methods here, one per branch or loop; the method that combines them carries the name and the contract of the C function.
- The atomizer and `diff_atom_cmp` (lib/diff_main.c:104-214): `same` is any relation on atom numbers.
- `diff_algo_patience`: `Divider` stands for any algorithm that gives up or covers the section with settled and unsolved chunks.
- `state->kd_buf`, kept between calls to save allocations: each call has its own matrix or pair of columns.
- DiffMeaning.EqualUnedited: that equal files have a script without an edit asks of a divider that it pairs an equal section as it stands, as `diff_algo_patience` does.
- MyersDivide.DiffAlgoMyersDivide: no minimality of the whole is claimed, because of the guard and the tie at lib/diff_myers.c:570-572; after an effort cut (more than 2048 atoms) the unsolved sections are not claimed to be smaller than the input, and of several points equally far it is left open which is taken.
- MyersDivide.FindMidpoint: for an odd number of atoms some of which are equal, no condition simpler than the columns themselves is given for when they meet.
- DiffConfigs.DiffShipped: nothing about minimality beyond 511 atoms or with patience first.
- Path-limited and packed traversal (lib/commit_graph.c:191-239, 276-283, 292-363): only the path "/" is modelled, on which every commit counts as changed. Commits missing from the middle of a history are not modelled.
- CommitGraphs.CommitGraph.IterStart: starting again on a graph whose iteration has completed is not modelled. The C code allows it, but its traversed set is still full, so it would hand out the new start and only ancestors never traversed before.
- Ancestries.CollectCommits: `check_path_prefix` is left out, as if the path prefix were "/".
- Ancestries.Traverse: of commits equally far from the start and of one time, either may come first, as the set of open branches has no order.
- Blames.BlameOpen: the history is a linear list of versions; a path deleted or created again on the way is not modelled. A trailing empty line at the end of the file is dropped from the count, as in lib/blame.c:558-560.
- diff3: numbers and lines as text (lib/diff3.c:638-707); headers and commands are values, every line ends in a newline, and no line is a lone ".". The lists' growing arrays, and the entry readin() writes behind the last one, are left out.
- Diff3Script.MergeFiles: with a list that is not true, while the other is neither empty nor the same, only the result's form is stated; the walk may then read past the end of a file, which is an error, or the replay be refused.
- Diff3Lists.MergeVersions: for merge(O,O,B) the two scripts must be the same, as any deterministic diff makes them for equal files.
- Imsgs.Link.Run: one read of the link brings at most one descriptor, as the control buffer has room for one; the kernel's answers are arguments, and header fields are in little-endian order.
- `imsg_composev`, `imsg_flush`, `imsg_clear`, `msgbuf_clear`, `ibuf_reserve`, `ibuf_seek` and `ibuf_write`: easy variants of what is modelled.
- Deltas.ParseSize: the C code shifts an int, which C does not define for sizes of 2^31 and more; the model shifts 64-bit values.
- Base64.B64Pton: white space is that of the C locale, and the text holds no NUL before its end.
- MergeSort.Sort: run ends are in arrays of their own instead of packed into the other list, and elements are copied whole; the element size is only checked.
- RedBlack.Head.Insert: keys are integers, compared by their difference's sign; RB_AUGMENT does nothing, as by default; RB_PREV mirrors RB_NEXT and is left out.
- The splay tree of compat/tree.h, worktrees, references, the object store, deflate, the command line and the web interface.
