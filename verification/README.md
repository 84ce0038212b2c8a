# UniversalCodeGrep: a model and its properties

UniversalCodeGrep (ucg) walks directory trees with several threads, decides by name which files to
look at, scans each file for a regular expression with PCRE2 behind SSE4.2 shortcuts, and prints the
matching lines. This project models the logic of that program in Dafny and proves what it computes.
`dafny verify dfyconfig.toml` checks the whole project.

## The parts

**Scanning one file.** `ScanSpec` says what must be reported: a regular expression is a table of match ends
per start position, and the reference reports the leftmost match of each line on which a match starts;
`ScanExact` compares the scan without shortcuts with it. `Scanner` is the scanner as a class: the choice of
search mode, the loop over `ovector` with its recovery from empty matches, the incremental line count and the
splitting of a line. `ScanLoop` is the same loop as a function, round by round and for every search mode,
with its invariant, its end and what it reports; `ScanResults` says when that is every line it should be, and
`Utf8` what the bytes mean that the loop skips.
`LiteralSearch` is the choice between the two literal searches. Below are the vector routines,
each against a simple function: `ShortPattern` (substring search), `LineCounter` (counting newlines),
`CodeUnitTables` (first member of a byte table or range table), over `Sse` (the PCMPESTRI comparisons of
section 4.1 of the Intel Software Developer's Manual, volume 2B) and `Bits` (16-bit masks). `LiteralPrefix`
gives patterns a syntax and a meaning and proves the literal-prefix shortcut sound; `LiteralLines` says what
literal mode reports and that PCRE2 would report the same. `ResizableArray` is the read buffer whose zero
padding those routines rely on.

**Walking the tree.** `SyncQueue` is the queue as a class, one method for each critical section.
`QueueProtocol` puts any number of threads around it: every step is one critical section or one notify,
notifies come after the mutex is dropped, wake-ups may be spurious; `QueueSteps` shows that the methods are
steps of it. `Traversal` is what one entry of a
directory and one directory do; `TreeWalk` is the state machine of workers and master, and the other
modules prove results over all its runs: termination detection (`WalkRuns`), equality with the sequential
walk (`WalkResults`) and what that walk means (`WalkMeaning`), links and cycles (`FollowResults`,
`FollowCompleteness`, `FollowExact`), no deadlock (`WalkProgress`), a bound on every run (`WalkTermination`) and
on what it puts out (`OutputBound`), and that a worker reads a directory as `Traversal` does (`WalkReading`).
`Pipeline` chains globber, scanners and output task as `main` does; `PipelineResults` proves that it conserves
work and is never stuck, and `PipelineTermination` bounds its runs. `QueueWork` is the cost of a queue's steps
for both machines. `EndToEnd` joins walk and pipeline to one program, and `ProgramResults` says what it prints
and that it returns. `FileIdentity` is the lazily cached identity behind the double-checked lock, with
`IdentityResults` over its runs and `FilePaths` on what a path spells.

**Choosing files by type.** `TypeSettings` gives the type options as operations on settings and the plain
rule for admitting a file. `TypeManager` is the class that compiles the settings to a sorted table of
microstrings (`Microstring`) and two hash tables and looks files up in them. `TypeResults` has the laws of
the options and `TypeNames` the matching of abbreviated type names.

A state machine's run is a sequence of states and the turns between them; a theorem over runs quantifies
over every such sequence, hence over every interleaving and any number of threads.

## What the code does, where that differs from what one would expect

* With a shortcut that fits one SSE register, or none, a file is scanned exactly for every expression if and
  only if it is not empty and no UTF-8 continuation byte directly follows a newline
  (`ScanResults.ScanIsExactIff`), so every UTF-8 file that is not empty is (`ScanResults.Utf8FileIsScannedExactly`).
  `FileScanner::Run` skips empty files (src/FileScanner.cpp:148).
* With a table of first code units as shortcut, files without such bytes are scanned exactly for all
  expressions the table suits if and only if the table has at most 16 entries
  (`ScanResults.TableScanIsExactIff`): the search returns on the first chunk of the table that hits, so with
  a longer one it can pass over the match on one line and find one on the next. An expression that can begin
  with 17 bytes, no two of them consecutive, gets such a table (`Scanner.LongTablesAreUsed`).
* The short substring search is leftmost for every zero-padded text exactly if the pattern is one byte
  long or does not end in NUL (`ShortPattern.ShortMemmemIsLeftmostIff`). What literal mode reports is right
  for every literal, but a literal for which the search is not can lead the loop behind the end of the file:
  some file does if and only if the literal has 2 to 16 bytes, ends in NUL and holds no newline
  (`LiteralLines.LiteralNeverStraysIff`). No command line holds such a literal.
* A table search returns the leftmost member for every table and text exactly if the table is no longer
  than one register (`CodeUnitTables.BlockSearchIsLeftmostIff`).
* On a file that is not empty the scan loop ends if and only if it does not search for the empty literal,
  which an empty PATTERN becomes when case is not ignored (`ScanLoop.LoopEndsIff`). A literal that contains a
  newline makes the `Match` constructor throw, so nothing is reported (`LiteralLines.LiteralWithNewline`).
* A directory's identifier is its parent's recorded device with the entry's inode number, so directories
  on two devices can share one. Where start directories share theirs with no other directory, a finished walk
  that follows links has read everything there is to reach, under each of its identifiers, if and only if no
  two directories share one (`FollowExact.FollowingIsCompleteIff`), link cycles included. The form that speaks
  of directories alone (`FollowExact.EveryDirectoryIsReadIff`) excludes trees in which a directory is reached
  both by a link and without one, for it then has two identifiers.
* A link's target is known under the link's own inode number, so following links a directory can be read
  twice and its files reported twice: where no two directories share an identifier, exactly the directories
  that can be reached under two, those the walk starts from aside (`FollowExact.ReadTwiceIff`).
* A file's identifier has one value over every run if and only if none was given at construction, or all
  stat values were, or the file is the root, or the one given is what stat finds
  (`IdentityResults.IdentifierIsStableIff`); a stat call for the root ends the program, which can happen if and
  only if the root lacks a stat value (`IdentityResults.GettersEndTheProgramIff`).
* `--type-add=T:is:NAME` is honoured as a file name exactly if NAME does not begin with `.`, `/` or `?` and is
  not among the filters of a deselected type (`TypeResults.AddIsHonoured`); a name whose only period comes first is listed by no type.
* Once some type has been selected, a filter added to a deselected type makes that type active with this filter
  alone, so that selecting it again does not give the others back (`TypeResults.AddedToDeselectedHidesTheRest`).
* The list of type names for an abbreviation holds all names that begin with it, and others exactly if the
  next name in order happens to contain it (`TypeNames.MatchingNames`).
* The allocation request is right exactly as long as `size_t` does not overflow
  (`ResizableArray.RequestIsRight`), and when it does the zeroing writes behind the block; a buffer whose
  replacement cannot be had has been freed and is still pointed at (`ResizableArray.ResizableArray.Realloc`).

## Model

| member | source | states |
|---|---|---|
| `ScanExact.LineByLineIsExact` | src/FileScannerPCRE2.cpp:302-509 | the reference reports strictly increasing lines, exactly those on which a match starts |
| `ScanExact.LineByLineTakesLeftmost` | src/FileScannerPCRE2.cpp:487-501 | what is reported of a line is its leftmost match |
| `ScanExact.ScanIsLineByLine` | src/FileScannerPCRE2.cpp:327-339 | without a continuation byte behind a newline, recovery from empty matches changes nothing |
| `ScanExact.StrayContinuationLosesALine` | src/FileScannerPCRE2.cpp:451-467 | for each such byte there is an expression whose match on that line is lost |
| `ScanResults.ScanIsExactIff` | src/FileScannerPCRE2.cpp:302-509 | a file is scanned exactly for every expression and every shortcut that suits it and fits if and only if it is not empty and no continuation byte directly follows a newline |
| `ScanResults.TableScanIsExactIff` | src/FileScannerPCRE2.cpp:367-395 | with a table as shortcut, files without such bytes are scanned exactly for all expressions it suits if and only if it has at most 16 entries |
| `ScanResults.FittingScanIsExact` | src/FileScannerPCRE2.cpp:302-509 | in order, none missed, none repeated, none invented: on those files, with any shortcut that fits |
| `ScanResults.Utf8FileIsScannedExactly` | src/FileScannerPCRE2.cpp:302-509 | every UTF-8 file that is not empty is scanned exactly, for every expression and every shortcut that suits it and fits |
| `Utf8.SkipsOneCharacter` | src/FileScannerPCRE2.cpp:451-467 | in text encoded by section 3 of RFC 3629, skipping from any byte of a character ends at the first byte of the next, for all four lengths |
| `Utf8.ContinuationBytes` | src/FileScannerPCRE2.cpp:456 | the bytes skipped are exactly those that stand behind the first byte of some character |
| `Utf8.TextNewlines` | src/FileScannerPCRE2.cpp:456 | in such a text no continuation byte follows a newline |
| `Utf8.LineOfCharacter` | src/FileScanner.cpp:215-236 | the line of a character is one more than the number of line feeds before it |
| `ScanResults.LongTableLosesALine` | src/FileScanner_sse4_2.cpp:233-263 | for every longer table there are a file and an expression of which line 1 is not reported |
| `Scanner.LongTablesAreUsed` | src/FileScannerPCRE2.cpp:214-218 | of 17 possible first bytes, no two consecutive, the table of single bytes is used, and it is longer than 16 |
| `Scanner.ApartUsesSingles` | src/FileScannerPCRE2.cpp:214-218 | of possible first bytes of which no two are consecutive, the table of single bytes is used |
| `ScanLoop.ShortcutPreservesScan` | src/FileScannerPCRE2.cpp:341-415 | prefix, table and range search that fit change nothing of what is reported, on any file |
| `ScanLoop.AnyScanIsSound` | src/FileScannerPCRE2.cpp:302-509 | with a table of any length: increasing lines, none repeated, none without a match start |
| `ScanLoop.RoundFollowsScan` | src/FileScannerPCRE2.cpp:321-502 | one round reports what the reference reports next, or nothing where it stays on the line |
| `ScanLoop.RoundKeepsTrack` | src/FileScannerPCRE2.cpp:336-502 | whatever the shortcut, a round keeps the loop on track and reports at most one real match, on a later line |
| `ScanLoop.NextReported` | src/FileScannerPCRE2.cpp:487-501 | the leftmost match from the offset on is on the last reported line, or is the next one of the reference |
| `ScanLoop.JumpSkipsNothing` | src/FileScannerPCRE2.cpp:342-396 | going on where the shortcut says skips no match start, for every sound prefix and each sound table that fits |
| `ScanLoop.LoopEndsIff` | src/FileScannerPCRE2.cpp:321-472 | on a file that is not empty the loop ends if and only if the engine is not the empty literal |
| `ScanLoop.EmptyLiteralNeverAdvances` | src/FileScannerPCRE2.cpp:321-336 | with the empty literal every round leaves the loop at offset 0 with its guard true |
| `ScanLoop.RoundProgresses` | src/FileScannerPCRE2.cpp:321-472 | the loop's measure: a round advances ovector[1], or turns a non-empty match into an empty one at one place |
| `Scanner.FileScannerPCRE2.ScanFile` | src/FileScannerPCRE2.cpp:302-509 | in every mode, what is added is what the rounds report and shows its line, and whether the loop goes astray; with an engine that serves the expression and fits, the scan of what PCRE2 would find, which on UTF-8 is every line with a match |
| `Scanner.FileScannerPCRE2.Loop` | src/FileScannerPCRE2.cpp:321-509 | the loop ends and adds what the rounds report, for tables of every length and every literal but the empty one |
| `Scanner.FileScannerPCRE2.ChooseTable` | src/FileScannerPCRE2.cpp:197-246 | the shorter of the two tables is used, a single first code unit only when case counts; the table is well formed, and no match can start where it does not look |
| `Scanner.FileScannerPCRE2.AnalyzeRegex` | src/FileScannerPCRE2.cpp:197-284 | when each mode is chosen, and that whatever is chosen does PCRE2's work for every matcher of the expression |
| `Scanner.FileScannerPCRE2.SkipAhead` | src/FileScannerPCRE2.cpp:342-396 | the place where the shortcut goes on, for every prefix and tables of every length, or that there is none |
| `Scanner.FileScannerPCRE2.Search` | src/FileScannerPCRE2.cpp:398-415 | one search: what either literal search finds for every literal, the leftmost match, or the non-empty match right there |
| `Scanner.FileScannerPCRE2.LiteralMatch` | src/FileScanner_sse4_2.cpp:368-402 | for every literal both offsets of what the two searches find; for one they are right for, the leftmost occurrence |
| `Scanner.FileScannerPCRE2.AdvanceOneCharacter` | src/FileScannerPCRE2.cpp:430-467 | from anywhere in a UTF-8 character, on to the first byte behind it; in any file, to the next byte that is not of the form 10xxxxxx |
| `Scanner.FileScannerPCRE2.RecordMatch` | src/FileScannerPCRE2.cpp:487-508 | the line number is that of the match start; one match a line is added; a match over a newline or past the end throws |
| `Scanner.MakeMatch` | src/Match.cpp:26-54 | text before, match and text after it make up the line from newline to newline, the match where it is; throws if and only if the match holds a newline or ends behind the file |
| `LiteralLines.ReportedShowsItsLine` | src/Match.cpp:26-54 | in every mode and file, each match reported shows a whole line with the text the engine matches in its place, and carries the number of that line |
| `Scanner.PrefixOpensMatches` | src/FileScannerPCRE2.cpp:265-279 | in the file every match of the pattern begins with its literal prefix |
| `LiteralPrefix.LiteralPrefixIsSound` | src/FileScanner.cpp:249-282 | whenever the prefix is longer than one, every match begins with that many pattern bytes |
| `LiteralPrefix.LiteralPrefixIsLongest` | src/FileScanner.cpp:249-282 | in a pattern without alternatives that is not literal, the prefix holds no special byte and ends only before one, before an optional byte, or at 255 bytes |
| `LiteralPrefix.IsPatternLiteralIff` | src/FileScanner.cpp:238-247 | a pattern is taken for literal if and only if it holds none of the special bytes, which include all of PCRE2's |
| `LiteralPrefix.LiteralPatternIsItsText` | src/FileScanner.cpp:238-247 | a text that IsPatternLiteral accepts is the text of one pattern only: its own bytes |
| `LiteralPrefix.LiteralItemsMatchOnlyTheirText` | src/FileScanner.cpp:238-247 | that pattern matches its own text and nothing else |
| `LiteralLines.LiteralSearchFindsTheSame` | src/FileScannerPCRE2.cpp:254-264 | a matcher of that pattern has a match exactly where the literal occurs, and ends there too |
| `LiteralLines.LiteralModeIsPcre2` | src/FileScannerPCRE2.cpp:411-415 | literal mode reports what PCRE2 would report, for every literal but the empty one |
| `LiteralLines.LiteralModeReportsItsLines` | src/FileScannerPCRE2.cpp:411-415 | for every file literal mode reports, in order, exactly the lines that hold the literal |
| `LiteralLines.LiteralScanIsLineByLine` | src/FileScannerPCRE2.cpp:411-415 | literal mode agrees with the reference on every file, stray continuation bytes included |
| `LiteralLines.LiteralWithNewline` | src/Match.cpp:52 | with a newline in the literal the first match throws and nothing is reported |
| `LiteralSearch.LiteralFindIsLeftmost` | src/FileScanner_sse4_2.cpp:374-385 | from any offset, the leftmost occurrence, for literals not of 2 to 16 bytes with a NUL at the end |
| `LiteralSearch.LiteralFindMeaning` | src/FileScanner_sse4_2.cpp:374-385 | for every literal: the leftmost occurrence, or one half in the padding if there is none from the offset on |
| `LiteralLines.LiteralNeverStraysIff` | src/FileScannerPCRE2.cpp:321-325 | a literal never takes the offset behind the end of a file if and only if it is reliable or holds a newline |
| `LiteralLines.ReliableNeverStrays` | src/FileScannerPCRE2.cpp:321-472 | neither such a literal nor any expression ever does |
| `ShortPattern.MemmemShortPattern` | src/libext/memory.hpp:124-243 | the nested loops end and compute the block search over the padded memory |
| `ShortPattern.ShortMemmemIsLeftmost` | src/libext/memory.hpp:124-243 | the leftmost occurrence or none, over block borders and past false partial matches |
| `ShortPattern.ShortMemmemMeaning` | src/libext/memory.hpp:124-243 | for every pattern: nothing is missed, and what only padding completes has no occurrence behind it |
| `ShortPattern.PaddingPretends` | src/libext/memory.hpp:216-231 | a pattern that ends in NUL can be found half in the padding |
| `ShortPattern.ShortMemmemIsLeftmostIff` | src/libext/memory.hpp:124-243 | leftmost on all zero-padded memory if and only if the pattern is one byte or does not end in NUL |
| `LineCounter.CountLinesDefault` | src/FileScanner.cpp:215-236 | the memchr loop counts the newlines of the range |
| `LineCounter.PrologueMaskCounts` | src/FileScanner_sse4_2.cpp:92-101 | the two shifted masks keep exactly the bytes of the range in the block |
| `LineCounter.MemCntPrologue` | src/FileScanner_sse4_2.cpp:64-103 | counts the newlines up to the first aligned address or the end |
| `LineCounter.CountLines` | src/FileScanner_sse4_2.cpp:106-209 | equals the count of newlines for every alignment, length and surrounding memory |
| `Bits.PopCount16` | src/libext/integer.hpp:288-298 | the Kernighan loop counts the bits set |
| `Bits.MinusOneIsMinusOne` | src/libext/integer.hpp:294 | the mask less one as a number |
| `Bits.ClearLowestBit` | src/libext/integer.hpp:294 | and with the mask less one removes exactly one bit |
| `Bits.FindFirstSetBit` | src/libext/integer.hpp:311-318 | one more than the index of the lowest bit, 0 for none |
| `Sse.CmpEqualOrdered` | src/libext/memory.hpp:173-180 | least lane at which the pattern matches or begins to match at the register's end |
| `Sse.CmpEqualAny` | src/FileScanner_sse4_2.cpp:239-240 | least lane whose byte is in the table chunk |
| `Sse.CmpRanges` | src/FileScanner_sse4_2.cpp:338-339 | least lane whose byte lies in one of the chunk's pairs |
| `CodeUnitTables.SetBytesAreTheBits` | src/FileScanner.cpp:364-384 | the code unit table is ascending and holds exactly the bits set |
| `CodeUnitTables.BitsMakeUpTheMap` | src/FileScanner.cpp:364-384 | the bits read from a byte of the map, least significant first, are that byte |
| `CodeUnitTables.RunsAreMaximal` | src/FileScanner.cpp:386-435 | the range table is maximal disjoint runs that accept exactly the table's bytes |
| `CodeUnitTables.Tables.ConstructCodeUnitTable` | src/FileScanner.cpp:364-384 | fills the array with those bytes |
| `CodeUnitTables.Tables.ConstructRangePairTable` | src/FileScanner.cpp:386-435 | fills the array with those runs and never overflows 256 bytes |
| `CodeUnitTables.Tables.FindFirst` | src/FileScanner_sse4_2.cpp:214-266 | find_first_of and find_first_in_ranges compute the block search |
| `CodeUnitTables.Tables.FindFirstInRanges` | src/FileScanner_sse4_2.cpp:313-365 | the leftmost byte in a range for a table that fits |
| `CodeUnitTables.Tables.Find` | src/FileScanner_sse4_2.cpp:268-309 | the leftmost occurrence of the one byte, or the end |
| `CodeUnitTables.Tables.FindFirstPossibleCodeUnit` | src/FileScanner.cpp:438-463 | dispatch on the table's size |
| `CodeUnitTables.BlockSearchMeaning` | src/FileScanner_sse4_2.cpp:225-265 | any table: the end if and only if there is no member, else a member in the first block that has one |
| `CodeUnitTables.BlockSearchIsLeftmost` | src/FileScanner_sse4_2.cpp:225-265 | a table of at most 16 entries gives the leftmost member |
| `CodeUnitTables.LongTableSkips` | src/FileScanner_sse4_2.cpp:233-263 | for every longer table there is a text in which an earlier member is passed over |
| `CodeUnitTables.BlockSearchIsLeftmostIff` | src/FileScanner_sse4_2.cpp:225-265 | leftmost on every text if and only if the table has at most 16 entries |
| `CodeUnitTables.BothTablesAgree` | src/FileScanner_sse4_2.cpp:214-365 | both searches return the same position when both tables fit |
| `ResizableArray.IsPowerOf2IsRight` | src/libext/integer.hpp:99-106 | the bit trick recognises exactly the powers of two |
| `ResizableArray.MaskIsRemainder` | src/libext/memory.hpp:85 | masking with the alignment less one is the remainder |
| `ResizableArray.AcceptableIff` | src/libext/memory.hpp:79 | the alignments that are not refused are the powers of two that 8 divides |
| `ResizableArray.RoundedUp` | src/libext/memory.hpp:85 | the request is a multiple of the alignment and exceeds size and padding by at most one alignment |
| `ResizableArray.RequestIsRight` | src/libext/memory.hpp:79-94 | that holds in size_t arithmetic if and only if the sum does not overflow; if it does, the request is too small |
| `ResizableArray.TrailingZerosDivide` | src/ResizableArray.h:75 | the recorded alignment divides the address |
| `ResizableArray.ResizableArray.Realloc` | src/ResizableArray.h:61-86 | for all sizes: an aligned buffer with 128 zero bytes behind the data, hence padded as the short search requires, reused with its contents when large and aligned enough; or bad_alloc; or, exactly on overflow, a write behind the block |
| `ResizableArray.ReuseIsAlignedIff` | src/ResizableArray.h:63 | reuse gives the alignment asked for, wherever the buffer is, if and only if it divides the recorded one |
| `SyncQueue.Queue.Close` | src/sync_queue.h:83-95 | sets the flag and wakes the pullers, not the waiter for completion |
| `SyncQueue.Queue.PushBack` | src/sync_queue.h:97-147 | appends one item and owes one notify, or is refused |
| `SyncQueue.Queue.PushBackAll` | src/sync_queue.h:156-180 | appends a container in order and owes a notify to all, or is refused |
| `SyncQueue.Queue.PullEnter` | src/sync_queue.h:186-196 | counts the thread as waiting and announces it at the level |
| `SyncQueue.Queue.PullLeave` | src/sync_queue.h:198-211 | takes the first item, or reports closed on an empty closed queue |
| `SyncQueue.Queue.AwaitEnter` | src/sync_queue.h:265-278 | sets the level unless 0, wakes the waiters and tests the condition |
| `SyncQueue.Queue.AwaitLeave` | src/sync_queue.h:280-287 | success means an empty queue and all workers waiting |
| `QueueProtocol.StepKeepsInv` | src/sync_queue.h:83-288 | whatever threads do, the waiting count is the number of sleepers and no wake-up is lost |
| `QueueProtocol.WakeCounts` | src/sync_queue.h:94 | notify_all moves the whole population of sleepers |
| `QueueSteps.PushStep` | src/sync_queue.h:97-147 | pushing one item, and what is then owed, is a step of the protocol |
| `QueueSteps.PushAllStep` | src/sync_queue.h:156-180 | so is pushing a container |
| `QueueSteps.CloseStep` | src/sync_queue.h:83-95 | so is closing |
| `QueueSteps.PullStep` | src/sync_queue.h:182-245 | so is pulling, from the start or from a wake-up, whether it waits or returns |
| `QueueSteps.AwaitStep` | src/sync_queue.h:263-288 | so is waiting for the workers |
| `Traversal.DTypeAgreesWithStat` | src/libext/DirTree.cpp:208-272 | every entry but "." and ".." is taken for what a stat call on it, or on its target when links are followed, would have said, and its identifier is the parent's device with its inode number |
| `Traversal.DirTree.ProcessDirent` | src/libext/DirTree.cpp:203-366 | one entry but "." and "..": an accepted regular file to the local queue, an admissible directory, unvisited if links are followed, to the shared one, and nothing else |
| `Traversal.DirTree.HasDirBeenVisited` | src/libext/DirTree.h:149-156 | inserts the key and says whether it was there |
| `Traversal.DirTree.ReadDirectory` | src/libext/DirTree.cpp:160-197 | a whole directory: its accepted files in one batch and in order; its admissible directories, or when links are followed the first with each identifier not visited before |
| `Traversal.DirectoryYields` | src/libext/DirTree.cpp:160-197 | reading entries one by one yields exactly those lists, and visits the identifiers of the admissible directories |
| `WalkReading.LocalStepIsReadOne` | src/libext/DirTree.cpp:175-182 | a worker's step over an entry has the outcome of ProcessDirent, whatever other threads have done to the visited set |
| `WalkReading.WorkerPutsOutDirectory` | src/libext/DirTree.cpp:191-194 | in every run, what a worker puts out at the end of a directory is the batch that ReadDirectory pushes |
| `TreeWalk.NextKeepsInv` | src/libext/DirTree.cpp:55-200 | every step of any thread keeps the protocol's invariant |
| `TreeWalk.WorkerUseTellsMaster` | src/sync_queue.h:188-193 | a worker that makes the completion condition true wakes the master: it never sleeps on it |
| `WalkRuns.CompletionIsFinal` | src/libext/DirTree.cpp:130-139 | once the wait has returned, no directory is queued or held, then or ever after |
| `WalkRuns.CompletionSucceeds` | src/sync_queue.h:263-288 | the wait never reports closed |
| `WalkRuns.NoPushIsRefused` | src/libext/DirTree.cpp:349 | no push of a directory meets a closed queue |
| `WalkResults.NextConserves` | src/libext/DirTree.cpp:146-200 | no step loses, repeats or invents a file |
| `WalkResults.ParallelWalkIsSequentialWalk` | src/libext/DirTree.cpp:55-200 | without links, any number of workers report the multiset of files of the sequential recursive walk |
| `WalkMeaning.WalkMeansLeads` | src/libext/DirTree.cpp:283-349 | the walk reports a path if and only if it names an accepted file under walked directories |
| `WalkMeaning.WalkReportsOnce` | src/libext/DirTree.cpp:290-350 | with distinct names in each directory, once and not more |
| `WalkMeaning.FlatWalk` | src/libext/DirTree.cpp:325 | without recursion only the directory's own accepted files |
| `FollowResults.IdentifierAdmittedOnce` | src/libext/DirTree.cpp:337-347 | over all threads an identifier met in a directory is admitted at most once |
| `FollowResults.EachIdentifierPulledOnce` | src/libext/DirTree.h:149-156 | at the end the directories pulled are the start directories and each identifier met, once each |
| `FollowResults.FollowingIsBounded` | src/libext/DirTree.cpp:333-349 | cycles or not, never more directories than start directories and known identifiers |
| `FollowCompleteness.ReportedIsWhatWasPulled` | src/libext/DirTree.cpp:160-197 | with or without links, the files reported are those of the directories pulled, as often |
| `FollowCompleteness.EveryReachableDirectoryIsRead` | src/libext/DirTree.cpp:283-349 | following links, a directory reached by a chain of directories whose identifiers are their own is read, whatever other identifiers are shared |
| `FollowCompleteness.EveryReachableFileIsReported` | src/libext/DirTree.cpp:290-314 | and every accepted file in it is reported, under a path that leads to it |
| `FollowExact.FollowingIsCompleteIff` | src/libext/DirTree.cpp:333-347 | for every tree whose start directories share no identifier, cycles included: each finished run has read everything under each of its identifiers if and only if no two directories share one |
| `FollowExact.EveryDirectoryIsReadIff` | src/libext/DirTree.cpp:333-347 | where each directory has one identifier, each finished run has read every directory if and only if no two share one |
| `FollowExact.SharedIdentifierLosesADirectory` | src/libext/DirTree.cpp:333-347 | of any two directories met under one identifier only, no run of any job reads both |
| `FollowExact.SharedIdentifierIsPulledOnce` | src/libext/DirTree.cpp:337-347 | under an identifier of no start directory, no run pulls more than one directory |
| `FollowCompleteness.PulledIsReachable` | src/libext/DirTree.cpp:146-200 | nothing is pulled that no chain of subdirectories leads to |
| `FollowExact.TwoDevicesLoseADirectory` | src/libext/FileID.cpp:440-443 | a tree with a mount point is a case of it: every finished run has missed a directory |
| `FollowExact.ReadTwiceIff` | src/libext/DirTree.cpp:333-347 | with faithful identifiers a directory the walk does not start from is read twice if and only if it can be reached under two |
| `FollowExact.OneLinkIsReadTwice` | src/libext/DirTree.cpp:333-347 | one link beside its target: every finished run reads it twice and reports its file under both paths |
| `FollowExact.LinkCycleIsRead` | src/libext/DirTree.cpp:333-347 | a link to its own directory is a case of the equivalence: every finished run reads the directory under both identifiers |
| `WalkProgress.NeverStuck` | src/libext/DirTree.cpp:120-139 | until all workers are joined some thread can take a step other than a spurious wake-up |
| `WalkProgress.OnlyFinishedRunsStop` | src/libext/DirTree.cpp:130-139 | a run that only a spurious wake-up could prolong has finished |
| `WalkTermination.EveryStepWorks` | src/libext/DirTree.cpp:146-200 | every step but a spurious wake-up uses up some of the work there is |
| `WalkTermination.RunsAreBounded` | src/libext/DirTree.cpp:55-200 | a run is no longer than that work plus two steps for each spurious wake-up |
| `Pipeline.NextKeepsInv` | main.cpp:86-122 | every step of any stage keeps the closing and joining order |
| `PipelineResults.NoPushIsRefused` | main.cpp:104-119 | no push of a file or of a match list meets a closed queue |
| `PipelineResults.PipelineConserves` | src/FileScanner.cpp:127-167 | each file is pulled once and in order; what is printed is, in some order, the match lists one thread would print; the total is the number of their lines |
| `PipelineResults.ExitCode` | main.cpp:124-135 | 0 if and only if some file found has a match |
| `PipelineResults.OthersBalance` | src/OutputTask.cpp:56-72 | draining and counting keeps what the files yield in balance |
| `PipelineResults.NeverStuck` | main.cpp:104-122 | until main returns some thread can take a step that is no spurious wake-up and no push of more files |
| `PipelineTermination.EveryStepPays` | main.cpp:104-122 | every step but a spurious wake-up uses up work that only the files found bring in |
| `PipelineTermination.RunsAreBounded` | main.cpp:86-122 | a run is no longer than the work at its start, that of the files found, and two steps for each spurious wake-up |
| `QueueWork.StepPlaces` | src/sync_queue.h:97-211 | what each use of a queue costs its threads, wake-ups of all sleepers included |
| `ProgramResults.ProgramReportsTheTree` | main.cpp:86-135 | without links, whatever the threads do: printed are, in some order, the match lists of the files of the sequential walk, each as often as that walk reports it; total and exit code are those of that walk |
| `ProgramResults.ProgramPrintsWhatTheWalkFinds` | main.cpp:104-135 | with or without links: what is printed is what the files put out by the walk yield |
| `ProgramResults.EveryReachableFileIsPrinted` | main.cpp:104-122 | following links, each accepted file of a directory reached by such a chain is put out under a path that leads to the directory, and printed if it has matches |
| `ProgramResults.NeverStuck` | main.cpp:104-122 | no thread of the whole program waits for ever: until main returns a step is possible |
| `ProgramResults.RunsAreBounded` | main.cpp:86-122 | a run of the whole program is no longer than its work and that of the files put out |
| `ProgramResults.OutputIsBounded` | src/libext/DirTree.cpp:55-200 | which are never more than the tree holds, or following links than the directories that can be pulled may hold |
| `ProgramResults.ProgramIsBounded` | main.cpp:86-135 | so a run has no more steps than a number that the job determines and two for each spurious wake-up, link cycles or not |
| `OutputBound.FollowingOutputIsBounded` | src/libext/DirTree.cpp:146-200 | following links, at every moment: the files named, and the longest directory for each one that can be pulled |
| `IdentityResults.StatCalledAtMostOnce` | src/libext/FileID.cpp:280-316 | LazyLoadStatInfo runs at most once for each FileID |
| `FileIdentity.StepKeepsInv` | src/libext/DoubleCheckedLock.hpp:82-103 | check, lock, check again, fill, publish: every step of every getter keeps locks, caches and identifiers consistent |
| `IdentityResults.BitsOnlyGrow` | src/libext/DoubleCheckedLock.hpp:98-101 | valid bits are never taken back along a run |
| `IdentityResults.IdentifierIsStableIff` | src/libext/FileID.cpp:339-340 | a file's identifier, once published, has one value over all runs if and only if no later stat call can find another |
| `IdentityResults.GettersEndTheProgramIff` | src/libext/FileID.cpp:287-290 | some run ends in std::terminate() if and only if a root lacks a value that a stat call fills |
| `IdentityResults.GetPathIsPure` | src/libext/FileID.cpp:346-369 | GetPath returns the join over the parents, whatever was asked before and in every interleaving |
| `FilePaths.GetPathSpellsNames` | src/libext/FileID.cpp:346-369 | what GetPath returns, split at the slashes, is the path given to the nearest ancestor, unless that is ".", and the names on the way down |
| `FilePaths.PathIsItsNames` | src/libext/FileID.cpp:353-366 | the join over the parents is that, for names that are not empty or "." and hold no slash |
| `FilePaths.SamePathIffSameNames` | src/libext/FileID.cpp:353-366 | files below one given path have the same path if and only if the names on the way down are the same |
| `IdentityResults.GetterIsServed` | src/libext/FileID.cpp:532-618 | a getter that returns has its value cached, with the path if it is the descriptor; only GetFileDescriptor may not, and then open() has failed for that file in that thread |
| `IdentityResults.NeverDeadlocked` | src/libext/FileID.cpp:346-354 | while a getter is at work some getter can move on: child before parent cannot deadlock |
| `IdentityResults.StepsUseUpWork` | src/libext/DoubleCheckedLock.hpp:82-103 | every step of a getter uses up some of its thread's work |
| `Microstring.Construct` | src/libext/microstring.hpp:155-182 | the packed word of 64 bits, or length_error for more than eight bytes |
| `Microstring.BswapOfLoad` | src/libext/microstring.hpp:180-181 | loading little-endian and swapping puts the first byte first |
| `Microstring.PackIsInjectiveUpToPadding` | src/libext/microstring.hpp:217-220 | equal words if and only if the strings differ in trailing NULs only |
| `Microstring.PackIsInjective` | src/libext/microstring.hpp:217-220 | on C strings equal words if and only if equal strings |
| `Microstring.PackKeepsOrder` | src/libext/microstring.hpp:212-215 | on C strings words compare as the strings do |
| `Microstring.UnpackIsInverse` | src/libext/microstring.hpp:191-227 | the round trip and length() are right if and only if the string holds no NUL |
| `TypeManager.TypeManager.Type` | src/TypeManager.cpp:227-266 | clears the active types the first time, gives back the type's filters, activates it |
| `TypeManager.TypeManager.NoType` | src/TypeManager.cpp:268-288 | removes the type's filters and deactivates it |
| `TypeManager.TypeManager.TypeAddIs` | src/TypeManager.cpp:403-407 | adds a name to both maps |
| `TypeManager.TypeManager.TypeAddExt` | src/TypeManager.cpp:409-413 | adds an extension with its period to both maps |
| `TypeManager.TypeManager.TypeAddGlobExclude` | src/TypeManager.cpp:415-423 | adds to the exclude globs and the ordered rules |
| `TypeManager.TypeManager.TypeAddGlobInclude` | src/TypeManager.cpp:425-433 | adds to the ordered rules and selects the type |
| `TypeManager.TypeManager.TypeDel` | src/TypeManager.cpp:436-442 | removes the type from both maps and says whether it was defined |
| `TypeManager.TypeManager.CompileTypeTables` | src/TypeManager.cpp:459-526 | the three tables hold exactly the effective filters, the fast one in strict order |
| `TypeManager.TypeManager.FileShouldBeScanned` | src/TypeManager.cpp:139-225 | the tables admit a file if and only if the plain rule over the settings does, whose meaning is `TypeResults.AdmitsIff` |
| `TypeResults.AdmitsIff` | src/TypeManager.cpp:139-225 | a name that some active type's unremoved filter lists, as name or by the extension behind its last period, is admitted unless an exclude glob matches it; any other if and only if the last glob that matches includes |
| `TypeResults.ExcludeTakesItsMatches` | src/TypeManager.cpp:169-189 | an exclude glob takes every name it matches and changes nothing for any other |
| `TypeResults.IncludeLetsIn` | src/TypeManager.cpp:196-218 | an include glob lets in every name it matches that no exclude glob does |
| `TypeResults.AddedExtensionIsAdmitted` | src/TypeManager.cpp:409-413 | after adding an extension, a name that ends in it is admitted if and only if no exclude glob matches it |
| `TypeResults.AddedNameIsAdmitted` | src/TypeManager.cpp:403-407 | after adding a file name, it is admitted if and only if no exclude glob matches it |
| `TypeManager.TypeManager.IsExcludedByAnyGlob` | src/TypeManager.cpp:444-457 | some exclude glob matches |
| `TypeManager.BinarySearch` | src/TypeManager.cpp:160 | finds exactly the members of a sorted table |
| `TypeManager.ShortLookup` | src/TypeManager.cpp:156-161 | an extension's word is in the table if and only if the extension is among the filters |
| `TypeResults.RunKeepsCoherent` | src/TypeManager.cpp:227-442 | over all sequences of options an active type's filters are a suffix of its definition |
| `TypeResults.TypesSelectTheirFilters` | src/TypeManager.cpp:237-263 | from a fresh manager, type options that name a known type leave exactly the filters of the known types they name in effect |
| `TypeResults.AddKeepsTheOthers` | src/TypeManager.cpp:403-433 | a filter is added behind those its type has and to no other type, and takes effect if it is not removed |
| `TypeResults.DeletedIsUnknown` | src/TypeManager.cpp:436-442 | a deleted type is unknown to later options and inactive, and nothing else changes |
| `TypeResults.DeselectTakesFilters` | src/TypeManager.cpp:278-285 | deselecting a type takes its filters from every active type |
| `TypeResults.SelectUndoesDeselect` | src/TypeManager.cpp:257-263 | selecting it again gives exactly those back |
| `TypeResults.AddedToDeselectedHidesTheRest` | src/TypeManager.cpp:257-263 | after a filter has been added to a deselected type, selecting it again puts that filter in effect, and any other of its filters if and only if another active type has it |
| `TypeResults.NotypesBeforeTypesVanish` | src/TypeManager.cpp:237-263 | on a fresh manager, notype options before type options that name a known type make no difference |
| `TypeResults.UnknownTypesDoNothing` | src/TypeManager.cpp:231-235 | type options that name no known type have no effect |
| `TypeResults.EqualFiltersEqualTables` | src/TypeManager.cpp:512-525 | equal effective filters compile to equal tables |
| `TypeResults.AddIsHonoured` | src/TypeManager.cpp:478-506 | a name added is looked up as a name if and only if it does not begin with ".", "/" or "?" and is not removed |
| `TypeResults.HiddenFilesAreNotListed` | src/TypeManager.cpp:145-147 | a name whose only period comes first is listed by no type and admitted by globs alone |
| `TypeResults.LastRuleMeaning` | src/TypeManager.cpp:196-218 | the verdict is that of the last rule that matches |
| `TypeResults.GlobsAloneDecide` | src/TypeManager.cpp:415-433 | include and exclude globs alone, from a fresh manager, decide by themselves |
| `TypeNames.GetMatchingTypenameList` | src/TypeManager.cpp:290-317 | the run of names from the lower bound on that contain the argument |
| `TypeNames.PrefixedRun` | src/TypeManager.cpp:294-295 | the names that begin with the argument are exactly a run from the lower bound |
| `TypeNames.ContainsIff` | src/TypeManager.cpp:299 | find() tells the names of which the argument is a part, with something or nothing before and behind it |
| `TypeNames.MatchingNames` | src/TypeManager.cpp:290-317 | the list holds them all, and no other if and only if the next name does not contain the argument |

## Left out

- Scanner.FileScannerPCRE2.ScanFile: a literal is required not to be empty, because the loop then does not end (`ScanLoop.LoopEndsIff`); where the loop goes astray the model stops, since the next search would read behind the file.
- Scanner.FileScannerPCRE2.Loop: the same.
- ResizableArray.ResizableArray.Realloc: says that zeros are written behind the block when size_t overflows, and nothing of the state after that. The shift of `1U` by the address's trailing zeros is taken modulo 32.
- FollowExact.FollowingIsCompleteIff: trees in which start directories share their identifiers with other directories are left out; which of these is lost there depends on the schedule.
- FollowExact.EveryDirectoryIsReadIff: a corollary for trees in which no directory is reached both by a link and without one.
- FollowExact.ReadTwiceIff: directories under whose identifiers the walk starts are left out, since each start is read once more.
- TypeManager.TypeManager.FileShouldBeScanned: names and filters are C strings, without NUL.
- FollowCompleteness.EveryReachableFileIsReported: under some path that leads to the directory; which of several paths is reported first depends on the schedule.
- FileIdentity: getters are frames on a thread's stack and FileIDs are values in a sequence, not objects on the heap, because the property is about interleavings; of the values a stat call yields only the identifier is modelled, and failing stat calls, SetDevIno(), the unlocked OpenDir() and copy, move and assignment are not.
- TreeWalk, Pipeline: threads are states of a machine; the methods of `SyncQueue.Queue`, `Traversal.DirTree` and `Scanner` are what a thread does within one step (`QueueSteps`, `WalkReading`).
- PCRE2 itself: compiling, JIT, `\K` and `\G`; an expression is any table of match ends without newlines in the matches, and a match error is not modelled.
- fnmatch(): a predicate on pattern and name.
- open(), stat(), readdir() and mmap() failures, and reading files: a file is bytes, a directory a list of entries.
- Weak memory: atomics and mutexes are sequentially consistent.
- The stages' statistics, logging, colours and output format, thread affinity and CPU detection.
- The parser of filter specifications, resource files and option tables. The type name with a colon that --include passes to type() is unknown there and has no effect.
- First-line regexes, which the program compiles and never consults, and which type a table entry came from.
- FileScannerPCRE, a scan loop close to the one modelled, and FileScannerCpp11, which is not built.
- Memory exhaustion other than in the read buffer, and exceptions that leave a thread.
