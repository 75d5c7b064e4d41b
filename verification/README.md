# Filesystem stress tests, verified

The repository is a collection of filesystem stress tests. Seven of its programs contain real
algorithms or protocols; this project models those and proves what they rely on. Every module
follows one program:

* **fiemap-test.c** (`FiemapExtents`, `FiemapChecker`, `FiemapCompare`, `FiemapVerdict`,
  `FiemapWriter`). A file is
  written from a map of data, hole and preallocated blocks, and the extents the kernel reports are
  compared with the map in windows of random size. The kernel is an extent list from which each
  call returns a slice. The window loop with its early-exit scans is proved equal to a plain
  per-block demand, for every window size, and composed with the writer into "no false alarm".
* **compilebench** (`BenchDatasets`, `BenchTree`, `BenchModel`, `BenchMeaning`, `BenchProgram`). Datasets are
  stripped against each other in place, source trees are created, patched, compiled, cleaned and
  deleted, and four dictionaries record which tree is in which state. `BenchModel` is the state
  machine on values with its reachable-state results, `BenchMeaning` says what its operations do in
  terms of the dataset files as they were read; the class `BenchProgram.Bench` is the
  program, each of whose methods is proved to make one step of that machine.
* **synctest.c** (`SyncNames`, `SyncScript`, `SyncChild`, `SyncRun`, `SyncProgress`, `SyncHistory`).
  The printed names, the calls of one child as one list, the loops that make them, and the whole run
  as an interleaving of a parent and its children that share a status array and a file system, with
  a log of what every child has done.
* **snapstorm.c** (`SnapStorm`, `SnapHistory`). The start barrier and end counter, step by step, for
  any number of threads and with spurious wakeups, and what each thread has done in a finished run.
* **salsa_scrambler.c** (`Salsa`), **sparse-cp** (`SparseCp`), **fiemap.py** (`FiemapParse`). The
  in-place column round and its double-buffered stream; the sparse copier and what exactly it
  writes; the binary FIEMAP buffer, its parser and the two-call protocol.

`Arithmetic`, `Counting` and `Bytes` hold the few facts and types the others share.

## Where the code does not do what it says

* fiemap-test.c, lines 271-272: the test for an unmarked preallocated extent negates before it
  masks, so it never fires. `FiemapChecker.UnwrittenTest` shows the expression is false for all flags,
  `FiemapCompare.PreallocationUnchecked` that layouts differing only in D against P always get the
  same verdict, and `FiemapCompare.UnmarkedPreallocationAccepted` gives an accepted list.
* fiemap-test.c, lines 206-214: whether a LAST flag before another extent is noticed depends on the
  random window size, because the two must come back from the same call.
  `FiemapVerdict.AllWindowsPassIff` gives the exact condition and
  `FiemapVerdict.VerdictDependsOnWindow` one list that is accepted with windows of one block and
  rejected with windows of two.
* compilebench, lines 303-312: a compiled dataset loses the names of the second version only, and
  patching deletes nothing, so a freshly patched tree survives compile and clean exactly when no
  compiled file is one of the first version's (`BenchModel.FreshPatchSurvives`, with a failing run in
  `BenchModel.CleaningTakesSource`). The four dataset files in the repository meet that condition:
  their stripped compiled set shares no name with the first version.
* compilebench, lines 332-394: what a "patched" tree holds depends on its history
  (`BenchModel.PatchedDependsOnHistory`, with two differing runs in `BenchModel.HistoriesDiffer`).
* compilebench, line 408: the counter for a deletion is chosen after the entry is gone;
  `BenchModel.DeleteFiledRight` says exactly when that files it wrongly and
  `BenchModel.DeletionMisfiled` is a run where it does. Lines 424 and 440 compare in time and are
  always right.
* sparse-cp: zero blocks right before the end, or before a short tail, are lost, and the tail moves
  up; `SparseCp.FaithfulIff` and `SparseCp.PaddedFaithfulIff` say exactly when the copy is faithful,
  and `SparseCp.UnfaithfulCopies` shows a file for each where it is not.
* synctest.c, lines 307-310: the loop that removes directories counts complete groups, so an
  incomplete last group keeps its directory (`SyncRun.WhatRemains`, with a run in
  `SyncProgress.DirectoryStays`).

## Model

| member | source | states |
|---|---|---|
| `FiemapExtents.ContainsIsCovers` | incoming/fiemap-test.c:269-286 | for whole-block extents, an aligned offset inside an extent always has its whole block inside, so the restart at `end + 1` is never reached |
| `FiemapExtents.SliceMembers` | incoming/fiemap-test.c:439-443 | a call returns exactly the extents that overlap its window |
| `FiemapExtents.SliceRegular` | incoming/fiemap-test.c:439-443 | what a call returns is again sorted, disjoint, aligned and non-empty |
| `FiemapExtents.SliceSize` | incoming/fiemap-test.c:435-443 | every overlapping extent uses up at least one block of the window |
| `FiemapExtents.CallNotTruncated` | incoming/fiemap-test.c:417-439 | a window of k blocks with room for k extents is never cut short |
| `FiemapChecker.CheckFlags` | incoming/fiemap-test.c:160-246 | accepts a list exactly when every extent's bits are right: aligned, none of 0x100, 0x200, 0x400, unaligned, 0x100; 0x80 only with 0x8 and 0x4 only with 0x2; and bit 0x1 on the final extent only |
| `FiemapChecker.FlagsInBits` | incoming/fiemap-test.c:174-241 | the demand on one extent, bit by bit, for aligned and for unaligned extents |
| `FiemapChecker.UnwrittenTest` | incoming/fiemap-test.c:270-272 | the test for an unmarked preallocated extent is false for all flags |
| `FiemapChecker.CheckData` | incoming/fiemap-test.c:248-302 | for any list of extents, sorted or not, with sums that wrap round at 64 bits: the loop's verdict is that of the scan, and reading the found extent afterwards is in range |
| `FiemapChecker.ScanDataFinds` | incoming/fiemap-test.c:256-288 | on a regular list the early exits lose nothing: the scan finds an extent iff one covers the block, and it is that one |
| `FiemapChecker.DataAcceptedMeans` | incoming/fiemap-test.c:290-301 | a data block is accepted iff some extent covers it, and for the last data block iff one marked LAST does |
| `FiemapChecker.EarlyExitsShow` | incoming/fiemap-test.c:256-288 | on lists that are not regular the scan differs from a search: a covering extent behind a distant one is missed, a block split between two extents is accepted, an end that wraps round covers nothing |
| `FiemapChecker.CheckHole` | incoming/fiemap-test.c:371-406 | for any list of extents, with sums that wrap round at 64 bits: the loop's verdict is that of the scan |
| `FiemapChecker.HoleAcceptedMeans` | incoming/fiemap-test.c:379-405 | on a regular list a hole is accepted iff nothing covers it or the zero-block probe tolerates it |
| `FiemapCompare.BlockInWindow` | incoming/fiemap-test.c:452-461 | a block of the window is judged in the slice as it would be in the whole list |
| `FiemapCompare.CheckBlock` | incoming/fiemap-test.c:461-482 | dispatch on the letter: accepts iff the per-block demand holds in the whole list; an unknown letter is rejected; the check is recorded with its window |
| `FiemapCompare.CheckWindow` | incoming/fiemap-test.c:452-485 | checks the blocks of the window once each, in order, up to the first that fails; accepts iff every one does, and then advances by k or to the end |
| `FiemapCompare.FindLastData` | incoming/fiemap-test.c:430-433 | the number found is that of the last non-hole block whenever there is one |
| `FiemapCompare.RunWindow` | incoming/fiemap-test.c:439-485 | one call, flag test and block checks extend the verdict and the record of checks by exactly one window |
| `FiemapCompare.CompareFiemapAndMap` | incoming/fiemap-test.c:408-492 | returns 0 iff every window's flags and every block pass; the calls are made at 0, k, 2k, ...; the checks made are blocks 0, 1, 2, ... once each and inside their own window, all of them on success; the loop ends |
| `FiemapCompare.NextWindow` | incoming/fiemap-test.c:484-487 | the next call starts at the next multiple of k, none is skipped |
| `FiemapCompare.LastBlockInFinalExtent` | incoming/fiemap-test.c:293-299 | the extent covering the last allocated block is the final one, so demanding LAST there is right |
| `FiemapCompare.SliceKeepsLast` | incoming/fiemap-test.c:206-214 | if only the final extent says LAST, that is so in every slice |
| `FiemapCompare.NoFalseAlarm` | incoming/fiemap-test.c:408-492 | any extent list reporting exactly the layout's blocks with correct flags is accepted, for every window size and whatever the probe would say |
| `FiemapCompare.PreallocationUnchecked` | incoming/fiemap-test.c:270-278 | swapping D and P anywhere never changes the verdict |
| `FiemapCompare.UnmarkedPreallocationAccepted` | incoming/fiemap-test.c:270-278 | a preallocated block reported without UNWRITTEN is accepted |
| `FiemapVerdict.OverlapsBetween` | incoming/fiemap-test.c:435-443 | an extent comes back from exactly the calls from the window it begins in to the one it ends in |
| `FiemapVerdict.AllWindowsPassIff` | incoming/fiemap-test.c:160-246 | the flag tests of all calls pass iff every extent that begins in a window asked for has consistent flags, and none marked LAST ends in the window where its successor begins |
| `FiemapVerdict.AcceptedIffExact` | incoming/fiemap-test.c:408-492 | with a probe that tolerates nothing: accepted iff the letters are valid, that condition on the flags holds, the covered blocks are exactly the non-holes and the last of them lies in a LAST extent |
| `FiemapVerdict.AcceptedSpelledOut` | incoming/fiemap-test.c:408-492 | for any regular list and any answers of the probe: the verdict in plain numbers and bits, with windows by division, coverage by comparison and flags by their bits |
| `FiemapVerdict.UnalignedNeedsItsFlag` | incoming/fiemap-test.c:174-184 | one block at an odd physical offset is rejected without 0x100 and accepted with it |
| `FiemapVerdict.VerdictDependsOnWindow` | incoming/fiemap-test.c:206-214 | one list is accepted with windows of one block and rejected with windows of two |
| `FiemapWriter.TestFile.Write` | incoming/fiemap-test.c:101-106 | a write that takes anything allocates the block, and the position moves by what was taken; a failed one changes nothing |
| `FiemapWriter.TestFile.Fallocate` | incoming/fiemap-test.c:110-114 | allocates the block without moving the position |
| `FiemapWriter.TestFile.SeekForward` | incoming/fiemap-test.c:118-123 | moves on by one block and allocates nothing |
| `FiemapWriter.CreateFileFromMapping` | incoming/fiemap-test.c:84-136 | succeeds iff each D is written in full, each P allocated and sought over, each H sought over and no other letter occurs; then the blocks are exactly the D, written, and the P, preallocated; on failure all blocks before the failing one are in place |
| `FiemapWriter.ExactKernelReports` | incoming/fiemap-test.c:439-443 | a kernel that reports exactly the allocated blocks exists for every block size |
| `FiemapWriter.RunOnce` | incoming/fiemap-test.c:597-611 | writer and checker together: if the file could be written and the kernel reports its blocks exactly, the comparison returns 0 |
| `BenchDatasets.DeleteNames` | incoming/test-subtrans/compilebench:298-306 | the try/del loop leaves exactly the names not in the other dataset |
| `BenchDatasets.DeleteEqual` | incoming/test-subtrans/compilebench:310-317 | the conditional loop leaves exactly the entries that are new or have another size |
| `BenchDatasets.StripInPlace` | incoming/test-subtrans/compilebench:295-317 | the four loops in their order: the compiled set is stripped by the original second version, before that one is thinned |
| `BenchDatasets.StripMembers` | incoming/test-subtrans/compilebench:295-317 | membership and size of each of the four stripped sets, on the raw datasets alone |
| `BenchDatasets.StripPreservesMeaning` | incoming/test-subtrans/compilebench:295-317 | writing a thinned dataset over its base gives what the full one gives; unpatched plus thinned compiled is the raw compiled version overlaid by the unpatched; the compiled sets share no name with their uncompiled ones |
| `BenchDatasets.StripIsStripped` | incoming/test-subtrans/compilebench:298-312 | stripping establishes the disjointness and the differing sizes the operations rely on |
| `BenchDatasets.CompileKeepsContents` | incoming/test-subtrans/compilebench:355-372 | compiling leads from the contents allowed for the old label to those allowed for the new one |
| `BenchDatasets.CleanKeepsContents` | incoming/test-subtrans/compilebench:377-394 | cleaning finds every file it unlinks and leaves contents allowed for the new label |
| `BenchDatasets.CompileThenClean` | incoming/test-subtrans/compilebench:355-394 | compile then clean restores an unpatched tree always, and a patched one iff it has no file the compiled dataset names |
| `BenchDatasets.PatchedSurvivesCompile` | incoming/test-subtrans/compilebench:303-312 | a freshly patched tree survives compile and clean iff the compiled dataset names no file of the first version |
| `BenchDatasets.HistoriesAgreeIff` | incoming/test-subtrans/compilebench:298-317 | the files of the two histories agree iff the thinned patch equals what cleaning leaves of the first compile |
| `BenchTree.MarkSeen` | incoming/test-subtrans/compilebench:217-219 | adds a directory and all its ancestors to seendirs |
| `BenchTree.EnsureParent` | incoming/test-subtrans/compilebench:211-219 | seendirs stays closed under dirname and within the existing directories; afterwards the parent exists, made or not |
| `BenchTree.WriteChunks` | incoming/test-subtrans/compilebench:235-244 | the loop writes exactly sz bytes, whatever the buffer size |
| `BenchTree.WriteOne` | incoming/test-subtrans/compilebench:221-245 | a new, unlinked or truncated file ends with size sz, any other grows by sz |
| `BenchTree.RunDirectory` | incoming/test-subtrans/compilebench:198-245 | every open finds its parent directory; the tree afterwards is the dataset laid over it (unlink or readfirst) or appended to it, plus the directories it needs |
| `BenchTree.RunTreeMembers` | incoming/test-subtrans/compilebench:209-245 | the files with their sizes and the directories afterwards, one by one |
| `BenchTree.CleanDirectory` | incoming/test-subtrans/compilebench:169-180 | removes exactly the dataset's files, none of which is missing |
| `BenchTree.Rmrf` | incoming/test-subtrans/compilebench:61-68 | removes every file and subdirectory, each rmdir on an empty one; the top directory stays |
| `BenchTree.ToFilesMembers` | incoming/test-subtrans/compilebench:319-322 | a dataset as a list names the same files as the dictionary |
| `BenchModel.LooksCompiledMeans` | incoming/test-subtrans/compilebench:408-443 | the dictionary comparison is true iff the label is a compiled one, or its dictionary and some compiled one are both empty |
| `BenchModel.ReadFiledRight` | incoming/test-subtrans/compilebench:415-444 | reads and stats are always counted under the right heading |
| `BenchModel.DeleteFiledRight` | incoming/test-subtrans/compilebench:397-412 | a deletion is counted rightly iff the label is a compiled one, or others of its label remain, or both compiled dictionaries have entries |
| `BenchModel.StepKeepsInv` | incoming/test-subtrans/compilebench:332-454 | every operation keeps contents matching labels, labelled trees on disk, and the counters balanced |
| `BenchModel.ReachableInv` | incoming/test-subtrans/compilebench:577-634 | in every run: contents by label, tracked trees exist, tracked count is creations minus deletions, trees on disk are creations |
| `BenchModel.ReachableContents` | incoming/test-subtrans/compilebench:332-454 | the exact contents of every tracked tree in every reachable state, and that cleaning never meets a missing file |
| `BenchModel.NamesNeverReused` | incoming/test-subtrans/compilebench:447-454 | no two creations of a run use the same name, because deleted trees keep their top directory |
| `BenchModel.DiskGrows` | incoming/test-subtrans/compilebench:61-68 | a created top directory is on disk ever after |
| `BenchModel.PatchedDependsOnHistory` | incoming/test-subtrans/compilebench:332-394 | from any state a new tree can go through patch, compile, clean and through compile, patch, clean; both runs end with the label patched, and with the same files iff the thinned patch equals what cleaning leaves of the first compile |
| `BenchModel.HistoriesDiffer` | incoming/test-subtrans/compilebench:332-394 | valid datasets and two runs from a fresh directory that end with the label patched and different files |
| `BenchModel.FreshPatchSurvives` | incoming/test-subtrans/compilebench:303-394 | from any state, the run create, patch, compile, clean ends with the files it had after the patch iff the compiled dataset names no file of the first version |
| `BenchModel.CleaningTakesSource` | incoming/test-subtrans/compilebench:303-394 | valid datasets and a run from a fresh directory in which cleaning removes a source file |
| `BenchModel.DeletionMisfiled` | incoming/test-subtrans/compilebench:397-412 | creating one tree and deleting it counts the deletion as one of a compiled tree |
| `BenchMeaning.StrippedOnRaw` | incoming/test-subtrans/compilebench:295-317 | what the program computes from the four files: the second version laid over the first, the first compile, and what the second compile adds |
| `BenchMeaning.ContentsOnRaw` | incoming/test-subtrans/compilebench:332-454 | in every reachable state, the contents each label allows, in terms of the four files as they were read |
| `BenchMeaning.CreateMeans` | incoming/test-subtrans/compilebench:447-454 | a created tree is the first version; nothing else changes |
| `BenchMeaning.PatchMeans` | incoming/test-subtrans/compilebench:332-351 | from which label to which, and the files afterwards: both versions, or the first compile under what the second adds; nothing else changes |
| `BenchMeaning.CompileMeans` | incoming/test-subtrans/compilebench:355-372 | from which label to which, and the files afterwards: the first compile, or each file grown by what the second compile adds |
| `BenchMeaning.CleanMeans` | incoming/test-subtrans/compilebench:377-394 | from which label to which, and the files afterwards: the first version, or the tree without what the second compile adds |
| `BenchMeaning.DeleteMeans` | incoming/test-subtrans/compilebench:397-444 | a deleted tree is forgotten and left empty; reading and statting change neither labels nor disk |
| `BenchMeaning.CountersCount` | incoming/test-subtrans/compilebench:324-454 | after every run each counter is the number of operations of its kind; only a deletion of a source tree can be counted under the wrong one of two |
| `BenchProgram.Enumerate` | incoming/test-subtrans/compilebench:76-80 | turning a dictionary into a list keeps every entry once, in any order |
| `BenchProgram.NativeOrder` | incoming/test-subtrans/compilebench:82-105 | the walk yields the dataset, each name once, and the scratch directory is gone afterwards |
| `BenchProgram.LoadDatasets` | incoming/test-subtrans/compilebench:261-322 | the four lists are the stripped datasets and the disk is as before |
| `BenchProgram.Bench.constructor` | incoming/test-subtrans/compilebench:261-322 | a fresh run: no directories, counters zero, datasets stripped |
| `BenchProgram.Bench.DictionariesDisjoint` | incoming/test-subtrans/compilebench:271-276 | in every reachable state the four dictionaries are pairwise disjoint and list only existing directories |
| `BenchProgram.Bench.PatchOneDir` | incoming/test-subtrans/compilebench:332-351 | does one patch step of the model, or returns 0 iff nothing is patchable |
| `BenchProgram.Bench.CompileOneDir` | incoming/test-subtrans/compilebench:355-372 | does one compile step of the model, or returns 0 iff nothing is compilable |
| `BenchProgram.Bench.CleanOneDir` | incoming/test-subtrans/compilebench:377-394 | does one clean step of the model, every unlink finding its file, or returns 0 iff nothing is compiled |
| `BenchProgram.Bench.DeleteOneDir` | incoming/test-subtrans/compilebench:397-412 | does one delete step of the model, or returns 0 iff nothing is tracked |
| `BenchProgram.Bench.ReadOneDir` | incoming/test-subtrans/compilebench:415-428 | changes only the counter the model names |
| `BenchProgram.Bench.StatOneDir` | incoming/test-subtrans/compilebench:431-444 | changes only the counter the model names |
| `BenchProgram.Bench.CreateOneDir` | incoming/test-subtrans/compilebench:447-454 | does one create step of the model under a free name from kernel-100 to kernel-100000 |
| `BenchProgram.Bench.CreateInitial` | incoming/test-subtrans/compilebench:577-584 | creates kernel-0, kernel-1, ... as initial directories, in this order and nothing else, all unpatched |
| `BenchModel.DrawPerforms` | incoming/test-subtrans/compilebench:631-634 | a draw that performs an operation of its kind extends the run by that operation |
| `BenchProgram.Bench.PerformDrawn` | incoming/test-subtrans/compilebench:519-520 | every drawn operation performs one step of its kind, or returns 0 and changes nothing, only when it has no directory to work on |
| `BenchProgram.Bench.RandomLoop` | incoming/test-subtrans/compilebench:631-634 | for every sequence of draws: total_runs is the number of operations performed, these are what the draws used lead to in the model, and the loop stops only when the runs are done, the draws are used up, or a creation finds no free name |
| `BenchProgram.Bench.MakeJ` | incoming/test-subtrans/compilebench:592-622 | with n unpatched trees and nothing else: performs n compiles, three reads if n > 0, and n deletions, in this order, counts 2n + 3 runs, and leaves no tree tracked and every top directory in place |
| `SyncNames.PaddedReads` | incoming/synctest.c:83-93 | a printed number reads back as itself, whatever its width |
| `SyncNames.FileNameInjective` | incoming/synctest.c:79-95 | printed names determine process, file number and pass |
| `SyncNames.BaseIsNotPass` | incoming/synctest.c:79-95 | a created name is never a renamed one |
| `SyncNames.FilePathInDir` | incoming/synctest.c:71-95 | every file name lies in the directory of its group |
| `SyncNames.FilePathInjective` | incoming/synctest.c:71-95 | whole paths determine directory, process, file and pass |
| `SyncNames.PrintedDir` | incoming/synctest.c:71-95 | the name of a group's directory, as printed |
| `SyncNames.PrintedLong` | incoming/synctest.c:71-95 | numbers of more than five digits are printed in full |
| `SyncNames.PrintedPass` | incoming/synctest.c:71-95 | the name of a rename pass, as printed |
| `SyncNames.PrintedBase` | incoming/synctest.c:71-95 | the name a file is created under, as printed |
| `SyncScript.SmallScript` | incoming/synctest.c:163-247 | the calls for two files, a lag of one and two passes, written out |
| `SyncScript.ScriptUnlinksEach` | incoming/synctest.c:236-246 | a script unlinks every file exactly once, in order, under the name of the last pass |
| `SyncChild.LiveStep` | incoming/synctest.c:163-247 | every rename and unlink of a child finds its file and leaves the files of the next position |
| `SyncChild.BeforeNext` | incoming/synctest.c:163-247 | the positions of a child walk through the script call by call |
| `SyncChild.NothingBeforeStart` | incoming/synctest.c:236-237 | a child begins at the beginning of the script |
| `SyncChild.AfterFile` | incoming/synctest.c:236-244 | after file f exactly the last min(f + 1, lag) files are left, under final-pass names |
| `SyncChild.LiveSize` | incoming/synctest.c:236-246 | a child never has more than lag + 1 files |
| `SyncChild.CallOnPaths` | incoming/synctest.c:147-216 | a call of one process changes only that process's files |
| `SyncChild.StepOnPaths` | incoming/synctest.c:147-247 | the same along the child's whole course, beside the files of others |
| `SyncChild.DoOneFile` | incoming/synctest.c:163-216 | makes the calls of the script for the file, create and all renames, each of which succeeds |
| `SyncChild.UnlinkOneFile` | incoming/synctest.c:147-161 | the unlink finds the file of the final pass |
| `SyncChild.DoChild` | incoming/synctest.c:218-247 | makes exactly the calls of the script, for file after file the open, the renames and the unlink of the file lag before, then the unlinks that are left; nobody else's file is touched and none of its own remains |
| `SyncRun.StepKeepsProtocol` | incoming/synctest.c:265-310 | every step keeps: children_left counts the slots not 2, waits count the reaped, reaped children's reports are read at each loop head, directories made match the groups |
| `SyncRun.StatusOnlyRises` | incoming/synctest.c:265-303 | each slot goes 0, 1, 2 and never back |
| `SyncRun.WaitFailsIffLost` | incoming/synctest.c:288-297 | when no child is left to wait for, the parent still expects one iff some child was lost before it could report |
| `SyncRun.NoChildErrorOnlyIfLost` | incoming/synctest.c:291-295 | the parent dies in wait3 only if a fork failed or a child died without reporting |
| `SyncRun.AtMostNWaits` | incoming/synctest.c:288-306 | at most n waits succeed |
| `SyncRun.PastLoopAllFinished` | incoming/synctest.c:276-306 | the parent is past the loop only when every child has counted all its iterations and reported |
| `SyncRun.OthersFiles` | incoming/synctest.c:71-95 | the other children's files are none this child could name |
| `SyncRun.CallFindsItsFile` | incoming/synctest.c:147-216 | over every interleaving each rename and unlink finds its file and leaves all other children's files in place |
| `SyncRun.StepKeepsFiles` | incoming/synctest.c:147-247 | the files on disk are always the union of what the children have at their positions |
| `SyncRun.PastLoopNoFiles` | incoming/synctest.c:307-310 | no file is left when directories are removed, so every rmdir works |
| `SyncRun.StepKeepsDirs` | incoming/synctest.c:267-310 | which directories exist at every point of the run |
| `SyncRun.ReachableInv` | incoming/synctest.c:249-313 | all of the above in every state reachable by any interleaving, with failing forks and children |
| `SyncRun.WhatRemains` | incoming/synctest.c:307-310 | at the end no file is left and one directory remains iff threads_per_dir does not divide n_threads, that of the incomplete last group |
| `SyncProgress.NoDeadlock` | incoming/synctest.c:286-310 | until the parent is done or has failed, it or a child can step, and without failing |
| `SyncProgress.CallFalls` | incoming/synctest.c:163-247 | every system call of a child brings it nearer to the end of do_child |
| `SyncProgress.RunsAreFinite` | incoming/synctest.c:249-313 | no interleaving is longer than a bound fixed by the configuration |
| `SyncProgress.NothingFails` | incoming/synctest.c:276-306 | if all forks and children succeed, nobody is lost and wait3 never fails for want of children |
| `SyncProgress.CanComplete` | incoming/synctest.c:249-313 | every run in which nothing has failed can be continued to that end |
| `SyncProgress.DirectoryStays` | incoming/synctest.c:307-310 | a run of one child where two share a directory leaves that directory behind |
| `SyncHistory.ReachableCalls` | incoming/synctest.c:249-313 | in every reachable state each child has made exactly the calls of its finished iterations and of this one up to its position, and the files on disk are what all calls, in the order they were made, lead to |
| `SyncHistory.PastLoopMeansScripts` | incoming/synctest.c:276-306 | when the parent is past the loop, every child has made the whole script as often as there are iterations, in its group's directory |
| `SyncHistory.DirectoryExists` | incoming/synctest.c:268-284 | a running child works in the directory of its group, index divided by threads_per_dir, and that directory exists |
| `SyncHistory.CompleteRun` | incoming/synctest.c:249-313 | a run in which nothing fails and nobody can step any more: the parent is done, every child has made its whole script n_iters times, every slot is 2, no file is left, and only the directory of an incomplete last group |
| `SnapStorm.WorkerLocal` | incoming/snapstorm.c:114-134 | a worker's step changes only its own position, a lock it takes or gives back, and the counter it increments |
| `SnapStorm.StepKeepsInv` | incoming/snapstorm.c:114-198 | every step of main or a worker keeps lock ownership, flag and counters in order |
| `SnapStorm.ReachableInv` | incoming/snapstorm.c:114-198 | the same in every reachable state of any number of threads, spurious wakeups included |
| `SnapStorm.StartBarrier` | incoming/snapstorm.c:119-132 | can_start means all are ready, no worker passes the barrier before it, and main is done only when every worker has counted itself finished |
| `SnapStorm.MutualExclusion` | incoming/snapstorm.c:119-132 | at most one thread is in either critical section |
| `SnapStorm.NoLostWakeup` | incoming/snapstorm.c:122-123 | in no state at or after the broadcast, at the end of any extension of the run, does a worker sleep on the condition |
| `SnapStorm.ReadyProgress` | incoming/snapstorm.c:176-183 | while main polls for readiness in vain, some worker can step |
| `SnapStorm.DoneProgress` | incoming/snapstorm.c:192-197 | while main polls for the end in vain, some worker can step |
| `SnapStorm.NoDeadlock` | incoming/snapstorm.c:114-198 | until main is done somebody can step without a spurious wakeup |
| `SnapStorm.WorkerStepFalls` | incoming/snapstorm.c:114-134 | every non-spurious worker step lowers a rank on the workers' positions |
| `SnapStorm.WorkersOnlyBounded` | incoming/snapstorm.c:114-134 | workers alone can make no more steps than their total rank |
| `SnapStorm.PollingEnds` | incoming/snapstorm.c:176-197 | while main sleeps, the workers run out of steps, and when they have, the guard of its loop is false |
| `SnapHistory.DoneOnce` | incoming/snapstorm.c:119-132 | in every run a worker has counted itself ready, taken its snapshot and counted itself finished exactly if it is past that point, and never twice |
| `SnapHistory.EverySnapshotTaken` | incoming/snapstorm.c:114-198 | when main is done every worker has taken exactly one snapshot: with can_start set, after all workers had counted themselves ready, and before it counted itself finished |
| `Salsa.QuarterInPlace` | incoming/salsa_scrambler.c:13-16 | four in-place assignments are quarterround of section 3 of the Salsa20 specification on those words; no other word changes |
| `Salsa.QuarterRoundBijective` | incoming/salsa_scrambler.c:13-16 | it is undone from either side |
| `Salsa.ColumnRoundBijective` | incoming/salsa_scrambler.c:13-28 | the four columns together are undone from either side |
| `Salsa.SixteenWords` | incoming/salsa_scrambler.c:13-28 | the sixteen assignments in order: each word of the result by the words it is made of, with 7, 9, 13 and 18 |
| `Salsa.Scramble` | incoming/salsa_scrambler.c:9-31 | the sixteen assignments are columnround of section 5 of the Salsa20 specification, for any word operations, copied to the output lane |
| `Salsa.Pass` | incoming/salsa_scrambler.c:48-50 | one pass scrambles every lane once and leaves both buffers equal |
| `Salsa.Stream` | incoming/salsa_scrambler.c:47-58 | the k-th chunk is the k-fold column round of every lane of the seed; swapping the buffers never shows |
| `Salsa.RoundsInjective` | incoming/salsa_scrambler.c:47-58 | k rounds lose nothing |
| `Salsa.RepeatsThroughSeed` | incoming/salsa_scrambler.c:47-58 | if the states after i < j passes coincide, the one after j - i passes is the seed |
| `Salsa.StreamRepeats` | incoming/salsa_scrambler.c:47-58 | so if two chunks of the stream coincide, an earlier chunk was the seed itself |
| `Salsa.RotateMovesBits` | incoming/salsa_scrambler.c:8 | for all words and amounts bit i comes to place i + b, round the end past bit 31 |
| `Salsa.Word32Is` | incoming/salsa_scrambler.c:8-13 | words are mixed by rotating their 32-bit sum and combined by exclusive or |
| `Salsa.QuarterRoundExample` | incoming/salsa_scrambler.c:13-16 | an example of quarterround in section 3 of the Salsa20 specification |
| `Salsa.LanesAdvance` | incoming/salsa_scrambler.c:47-58 | from chunk to chunk, beginning with the seed, each of the 128 lanes has had one more round |
| `Salsa.SalsaScramblerBijective` | incoming/salsa_scrambler.c:8-31 | the 32-bit scrambler has an inverse on all 16-word states |
| `Salsa.SalsaScrambler` | incoming/salsa_scrambler.c:9-31 | the function itself on 32-bit words |
| `Salsa.ScramblerMain` | incoming/salsa_scrambler.c:33-58 | the stream of main with 2048-word buffers |
| `SparseCp.OutFile.SysWrite` | lib/sparse-cp:20-27 | writing past the end leaves zeros in the gap and moves the position |
| `SparseCp.ZerosAfterData` | lib/sparse-cp:22-23 | everything skipped since the last data block is zero |
| `SparseCp.GapIsZeros` | lib/sparse-cp:26-27 | a data block written at its offset completes the copy so far, gap included |
| `SparseCp.Copy` | lib/sparse-cp:8-31 | the output is the source with the zero blocks right before the end, or the short tail, cut out |
| `SparseCp.CopiedInBlocks` | lib/sparse-cp:13-31 | in blocks of 4096: what is kept ends with a block that has data, all blocks skipped behind it are zero, and then comes what is left behind the last full block |
| `SparseCp.FaithfulIff` | lib/sparse-cp:13-31 | the copy equals the source iff there is no full block or the last full block has data |
| `SparseCp.PaddedFaithfulIff` | lib/sparse-cp:13-31 | padded with zeros it equals the source iff it was faithful or the tail is all zeros; always for whole blocks |
| `SparseCp.FaithfulInNumbers` | lib/sparse-cp:13-31 | both conditions for a faithful copy in plain numbers, with blocks of 4096 bytes |
| `SparseCp.TailMoved` | lib/sparse-cp:17-20 | when blocks were cut before a tail with data, some byte of the tail is at the wrong place |
| `SparseCp.UnfaithfulCopies` | lib/sparse-cp:13-31 | a file of one zero block comes out empty, and one zero block before a data byte comes out wrong even when padded |
| `FiemapParse.PackRoundTrip` | incoming/fiemap.py:69-73 | unpacking what was packed gives every field back, for every format and all values in range |
| `FiemapParse.ParseFiemapExtents` | incoming/fiemap.py:80-88 | the loop reads record after record and stops with an error at the first that is cut short |
| `FiemapParse.ParsedExtentsFit` | incoming/fiemap.py:83-85 | for any way of reading records of 56 bytes: parsing succeeds iff the records asked for fit the string, and yields that many |
| `FiemapParse.ParsedFits` | incoming/fiemap.py:80-95 | parse_fiemap succeeds iff the string holds 32 bytes and 56 more for each extent its extent_count field promises, and then yields that many |
| `FiemapParse.ParsesRecords` | incoming/fiemap.py:83-87 | serialised records are read back one by one, whatever follows them |
| `FiemapParse.ParseFiemap` | incoming/fiemap.py:90-95 | the header is the first 32 bytes and its extent_count governs the records read after it |
| `FiemapParse.ParseRoundTrip` | incoming/fiemap.py:80-95 | parsing a serialised header and records gives every field back, in order, with the names of the flag bits |
| `FiemapParse.FourBytes` | incoming/fiemap.py:69-95 | numbers of four bytes are read least byte first |
| `FiemapParse.EightBytes` | incoming/fiemap.py:69-95 | numbers of eight bytes are read as two of four, the low one first |
| `FiemapParse.FiemapFromBytes` | incoming/fiemap.py:90-95 | for any string that parses: which bytes each field of the header comes from |
| `FiemapParse.ExtentFromBytes` | incoming/fiemap.py:80-88 | for any string that parses: extent e from the 56 bytes at 32 + 56e, logical in 0 to 8, physical in 8 to 16, length in 16 to 24, flags in 40 to 44 |
| `FiemapParse.FlagShownIff` | incoming/fiemap.py:55-86 | a flag's name is shown iff its own bit is set |
| `FiemapParse.NamedBits` | incoming/fiemap.py:55-64 | each of the nine names and the bit that shows it |
| `FiemapParse.ZeroRoom` | incoming/fiemap.py:101 | the zeroed room of the buffer is a run of all-zero records |
| `FiemapParse.RequestInBytes` | incoming/fiemap.py:97-101 | the request byte by byte: length all ones, extent_count the number asked for, zeros everywhere else |
| `FiemapParse.KernelFiemap` | incoming/fiemap.py:105 | the kernel's reply to that request fills in header and as many extents as fit and leaves the rest of the buffer |
| `FiemapParse.FiemapIoctl` | incoming/fiemap.py:97-106 | the reply is a header with num_ext records, the file's extents first and zero records after them |
| `FiemapParse.FiemapTwoCalls` | incoming/fiemap.py:112-118 | the second reply is parsed in full and never past its end: one record per extent counted first, exactly the file's extents if it did not change in between |

## Left out

- fiemap-test: `check_weird_fs_hole` is an arbitrary answer per offset (its warning is printed once,
  which does not change the answer); failing ioctl and malloc, `generate_file_mapping`, option
  parsing, and builds without fallocate.
- fiemap-test: the extent list is fixed during one comparison, sorted, disjoint and block-aligned,
  because `check_flags` does not look at logical offsets; the block size is a power of two; blocks
  times block size fits an `int`, which main's limit of two megabytes guarantees for the layouts it
  generates, while a layout given with `-m` may be of any length.
- compilebench: sizes are numbers, while the program compares the strings it read; the two agree
  for sizes written without leading zeros or signs.
- compilebench: dataset names are relative and normalised and none is a directory of another; the
  benchmark directory is fresh; random picks and the order of `os.walk` are arbitrary choices;
  timings, megabytes per second, syncs, traces and the printed report are not modelled.
- compilebench: dictionaries whose values are always 1 are sets.
- BenchProgram.Bench.CreateOneDir: requires that some name from kernel-100 to kernel-100000 is free;
  otherwise the program draws for ever.
- BenchProgram.Bench.RandomLoop: takes its draws from a finite sequence, because draws that find
  nothing to do may repeat for ever, and stops where a creation would search for a free name for ever.
- compilebench: reading a file before it is truncated, `read_dirtree` and `stat_dirtree` change
  nothing on disk; only their counters are modelled.
- synctest: runs without `-u`; write sizes, fsync and osync, opening the directory, and which error
  ends a child (a child may fail at any point and its files then stay); interrupted waits, which
  the program retries.
- synctest: `UNLINK_LAG` at most `N_FILES` and at least one rename pass, as its constants have it.
- snapstorm: `pthread_create` always works; the ioctl and the target name of a snapshot; rounds and
  the read-only option, which the program ignores.
- Salsa.Stream: the endless loop is cut after a number of passes and every write is complete.
- sparse-cp: only the last read is short and the source does not change while it is copied.
- fiemap.py: a little-endian machine; the names of flags are a set because the program joins them in
  a dictionary's order; `get_extents` false, opening files, and the command line.
- Everything else in the repository drives external tools or is small arithmetic: shell stress
  scripts, launchers, profiles, seekmark.c, seeker.c, write-after-checksum.c, slab-calc.py,
  masscreate.pl, creat_unlink.c and btrfs-decode.pl.
