# IllinixOS: a model of the kernel's state machines

IllinixOS is a small IA-32 kernel: six process slots shared by three text terminals, one physical
screen, a read-only file system and a handful of user programs. This project models the parts
whose correctness is a property of whole runs, and proves those properties.

The model has two layers. Code that updates variables in place is a class or a method over arrays
(`Kernel`, `Display`, `BlinkList`, `Editor`, `Driver`, `OpenFile`, the loops of `grep` and `itoa`). Each of its
methods is proved to do exactly one step of a small machine on values, and the theorems about
runs are proved of that machine.

| module | what it models |
|---|---|
| `ProcessModel`, `ProcessRuns`, `Preemption` | three stacks of processes, the timer that passes the processor round, and what holds over every run: returns, interrupted frames, fairness, keys |
| `WholeSystem` | the process machine and the three screens in one run |
| `ProcessTable`, `Kernel` | the slot table with parent links that implements the stacks: execute, halt, exceptions, timer, keys, descriptors |
| `FileSystem`, `OpenFiles`, `ProcessReads` | directory lookup and listing, block-wise reads through a position, `cat`; descriptors stay inside their files; a process's reads in a run of the whole machine |
| `TextScreen`, `PrivateScreens`, `Display` | one text screen as a window on a log; three private screens; one physical and three backing pages that implement them |
| `Grep` | the line scanner with a 1024-byte buffer, against "split into lines, then filter" |
| `Blinkers`, `BlinkBoard`, `BlinkList` | the periodic character cells of `fish`, as a list and as a linked list in an arena |
| `LineEditor`, `TypedLine` | the keyboard line, `t_read` and `sys_getargs`; the line and its echo are the same text |
| `VirtualRtc` | the per-terminal clocks behind `rtc_read` |
| `Numbers` | `itoa`, `strrev` and the `%#x` conversion |

Interrupt-disabled code is one step. An interrupt or system call arrives on the kernel stack of the
running process, the three boot ticks come with no system call between them, the image holds a
valid program named "shell", and every directory entry's inode exists. Frame addresses saved and
resumed are numbers; the registers inside a frame are not modelled.

Where the code differs from what its comments or its users would expect, the model follows the code,
and a lemma says exactly when the expected property holds:

- A root shell that halts restarts in its own slot and keeps its open descriptors
  (`ProcessModel.RootRestartsInPlace`, `ProcessModel.RestartedTableFreshExactly`).
- `sys_open` on an entry whose type is not 0, 1 or 2 fails but leaves the descriptor taken
  (`ProcessRuns.OpenOutcome`).
- The timer serves a display switch instead of passing the processor on, so one switch key per tick
  keeps the other terminals waiting for ever (`ProcessRuns.KeysCanStarve`).
- A switch restores the cursor saved when the terminal was last left, or column 7 if one of its
  processes halted to its parent since, which is wrong unless background output has led the cursor to just there
  (`PrivateScreens.ReturnKeepsCursorExactly`).
- A carriage return on the bottom row is written as a character (`TextScreen.ReturnIsNewlineExactly`).
- `grep` cuts a line longer than 1024 bytes into pieces (`Grep.GrepFindsLinesExactly`).
- A file read with a negative count moves the position back (`FileSystem.ReadKeepsPosition`).
- Listing a 32-byte name with a larger buffer runs on into the type field (`FileSystem.ListingIsName`).
- Blink lengths of 0 or above 32768 act as 1 (`Blinkers.PeriodIsKeptExactly`), and a sync always
  draws the off character (`BlinkBoard.SyncShowsExactly`).
- A buffer no longer than the command makes `sys_getargs` return the command's beginning
  (`LineEditor.ArgumentsAreSecondWord`).
- The least time in which `f` reads at frequency `f` return is a second exactly if `f` divides 512
  (`VirtualRtc.FrequencyIsExact`).

## Model

| member | source | states |
|---|---|---|
| ProcessModel.StepKeeps | student-distrib/scheduling.c:87-224 | every timer tick, execute, halt, key, open, close and read keeps the invariant: three stacks of distinct slots, disjoint, each with its terminal's number as root slot; every process above a root returns into the kernel stack of the one below it; every waiting terminal's saved frame lies in its running process's kernel stack; every descriptor has a driver |
| ProcessModel.BootStarts | student-distrib/scheduling.c:91-103 | a boot tick starts exactly one parentless process, in the slot of the next terminal's number |
| ProcessModel.RootSlotIsNext | student-distrib/syscalls.c:111-136 | once a root shell's slot is released, the lowest free slot is that slot, whatever the other terminals hold |
| ProcessModel.RootRestartsInPlace | student-distrib/syscalls.c:111-136 | halting a root shell starts a program in the same slot and leaves the whole machine as it was |
| ProcessModel.RestartedTableFreshExactly | student-distrib/syscalls.c:111-136 | the restarted shell finds fresh descriptors exactly if the old one had nothing open |
| ProcessRuns.CountIsUsed | student-distrib/syscalls.c:271-328 | the number of processes is the number of used slots, at most six, and six exactly when the search for a free slot fails |
| ProcessRuns.ExecuteFailsExactlyWhenFull | student-distrib/syscalls.c:219-369 | a program that is refused changes nothing; executing a valid one fails exactly when six processes exist, then changes nothing; otherwise one process is added on the scheduled terminal with fresh descriptors and the caller's frame, and popping it gives the old machine |
| ProcessRuns.StepTouchesOneStack | student-distrib/syscalls.c:166-170 | no step changes the stack of a terminal that is not scheduled, and on the scheduled one everything below the top stays |
| ProcessRuns.LowerStackIsKept | student-distrib/syscalls.c:139-170 | over any run in which a terminal keeps at least h processes, its lowest h-1 are untouched and the h-th keeps its slot and return frame |
| ProcessRuns.HaltReturnsToItsExecute | student-distrib/syscalls.c:139-208 | a program ended by its own halt or by the tick that serves CTRL+C resumes the very frame its own execute saved and restores the terminal's stack, whatever was executed and halted meanwhile there and elsewhere |
| ProcessRuns.ResumesRunningProcess | student-distrib/scheduling.c:209-220 | whatever frame a step resumes lies in the kernel-stack block of the process that runs then, and a started program is the running one |
| ProcessRuns.StepProgress | student-distrib/scheduling.c:114-212 | each tick after boot either passes the processor on or serves exactly one pending request; only keys make requests |
| ProcessRuns.EveryTerminalRuns | student-distrib/scheduling.c:114-212 | every terminal is scheduled within two ticks plus one for each request pending or made meanwhile |
| ProcessRuns.KeysCanStarve | student-distrib/scheduling.c:120-194 | for every n there is a run of n ticks, one switch key before each, in which no other terminal is scheduled |
| ProcessRuns.BootRun | student-distrib/scheduling.c:86-103 | from power-on, whatever keys are pressed, k of the first three ticks leave exactly the root shells of terminals 0 to k-1, in slots 0 to k-1 |
| ProcessRuns.OpenOutcome | student-distrib/syscalls.c:423-499 | open succeeds exactly when a descriptor is closed, the name is found and its type is known; it then returns the lowest closed one, at position 0 with the file's inode; a failure leaves no trace exactly when all are taken or the name is not found |
| ProcessRuns.CloseOutcome | student-distrib/syscalls.c:69-97 | close succeeds exactly for an open descriptor from 2 to 7, which it zeroes and nothing else; any other call changes nothing |
| ProcessRuns.CloseUndoesOpen | student-distrib/syscalls.c:69-97 | closing what a successful open returned leaves the whole machine as it was before the open |
| Preemption.PreemptedResumesItsFrame | student-distrib/scheduling.c:105-220 | a tick interrupts a terminal at a frame and gives the processor away, in boot or after: over any run in which that terminal does not get it back, the tick that gives it back resumes exactly that frame, with the terminal's processes as they were |
| Preemption.TickShows | student-distrib/scheduling.c:120-194 | a tick that finds switch keys pressed displays the lowest such terminal, uses up that key alone and returns to the interrupted program |
| Preemption.TickQuits | student-distrib/scheduling.c:195-202 | with no switch to serve, a pending CTRL+C of the scheduled terminal is used up and ends its running program: a root shell starts afresh, any other is popped |
| Preemption.TickPassesOn | student-distrib/scheduling.c:209-220 | otherwise the next terminal is scheduled and resumed at the frame at which it was interrupted, and nothing else changes |
| Preemption.QuitsAreServed | student-distrib/scheduling.c:195-202 | over any run, a pending CTRL+C waits until a tick ends a program of its terminal, and no tick ends one of a terminal for which it was not pressed |
| Preemption.QuitKeyHitsDisplayed | student-distrib/idt.c:139-143 | CTRL+C ends a program of the terminal that was displayed when it was pressed, or is still pending |
| Preemption.SwitchesAreServed | student-distrib/idt.c:109-126 | over any run, a pending switch waits until a tick displays its terminal, and a terminal not asked for is never displayed |
| WholeSystem.AlwaysAgree | student-distrib/scheduling.c:120-212 | at every point of every run from power-on, the process machine and the display agree on the terminal that has the processor and the one displayed, whatever is printed, typed, mapped and stored between the machine's steps |
| WholeSystem.OutputIsTheRunners | student-distrib/lib.c:198-204 | after any such run, what the running process prints appears on the screen of the terminal that the process machine has scheduled, and nowhere else |
| WholeSystem.MachineRuns | student-distrib/scheduling.c:87-224 | the machine's part of such a run is a run of the process machine |
| ProcessTable.ChainsEndAtRoots | student-distrib/syscalls.c:279-284 | following parent links from any terminal's recorded process visits exactly that terminal's stack, youngest first, and then -1 |
| ProcessTable.ActiveSlotsAreChains | student-distrib/syscalls.c:271-284 | a slot is active exactly if it lies on some terminal's chain of parent links, and then its block carries its own number; an idle slot has descriptors 2 to 7 closed |
| ProcessTable.ChainsAreDisjoint | student-distrib/syscalls.c:279-284 | no slot lies on two chains or twice on one |
| ProcessTable.RunningIsLeaf | student-distrib/scheduling.c:210-215 | the current process is the scheduled terminal's recorded one, page entry 32 and the kernel stack pointer are its own, and the count of processes is that of the used slots |
| ProcessTable.RepresentationUnique | student-distrib/syscalls.c:106-369 | the kernel's variables determine the three stacks, the saved frames and the requests |
| ProcessTable.IdleIsFree | student-distrib/syscalls.c:271-273 | the search over the active flags finds the lowest slot used by none of the three stacks |
| ProcessTable.ExecuteDoes | student-distrib/syscalls.c:265-354 | the assignments of execute add one process to the represented machine, or none when the search fails |
| ProcessTable.BootRepresents | student-distrib/scheduling.c:91-103 | the assignments of a boot tick represent the machine with one more root shell |
| ProcessTable.RestartDoes | student-distrib/syscalls.c:111-136 | releasing and retaking a root's slot represents the same machine: same slot, same terminal, counters restored |
| ProcessTable.HaltDoes | student-distrib/syscalls.c:139-170 | the assignments of a halt represent the machine with the leaf popped, and the frame stored in its block is the one its execute saved |
| ProcessTable.RotateRepresents | student-distrib/scheduling.c:210-217 | the assignments of a rotation represent the machine with the next terminal scheduled: current process, page entry and kernel stack pointer are those of its leaf |
| ProcessTable.TableRepresents | student-distrib/syscalls.c:449-496 | a change of the running process's descriptors is seen in no other process |
| Kernel.CheckProgram | student-distrib/syscalls.c:232-256 | passes exactly if the name is found, the first blocks exist and the magic number stands in the first four bytes of the buffer, which for a shorter file are those it held before |
| Kernel.PassesExactly | student-distrib/syscalls.c:247-256 | a valid file of at least four bytes passes exactly if its contents start with the ELF magic number |
| Kernel.Kernel.constructor | student-distrib/scheduling.c:36-42 | the zeroed variables after terminal set-up represent the machine without processes |
| Kernel.Kernel.SwitchKey | student-distrib/idt.c:109-126 | ALT+F1..F3 adds one pending switch and changes nothing else |
| Kernel.Kernel.QuitKey | student-distrib/idt.c:139-143 | CTRL+C adds a pending quit for the displayed terminal and changes nothing else |
| Kernel.Kernel.Execute | student-distrib/syscalls.c:219-369 | one execute step of the machine, loading exactly what passes the checks |
| Kernel.Kernel.CloseAll | student-distrib/syscalls.c:140-150 | every descriptor from 2 to 7 is closed and nothing else changes |
| Kernel.Kernel.Halt | student-distrib/syscalls.c:106-209 | one halt step of the machine |
| Kernel.Kernel.Tick | student-distrib/scheduling.c:87-224 | one tick of the machine: boot, or the first pending switch, or the pending quit, or a rotation |
| Kernel.Kernel.Close | student-distrib/syscalls.c:69-97 | one close step: 0 and a closed entry exactly for an open descriptor from 2 to 7, else -1 and no change |
| Kernel.Kernel.Open | student-distrib/syscalls.c:423-499 | one open step for the entry the name denotes; a success leaves the returned descriptor at position 0 with the driver of the entry's type and, for a file, its inode |
| Kernel.Kernel.Read | student-distrib/syscalls.c:374-392 | only descriptor 1, numbers outside 0..7 and closed ones are refused; any other call reaches a driver whose jump table is set, and files and directories deliver what the image holds from the position on |
| Kernel.Kernel.Write | student-distrib/syscalls.c:398-417 | only descriptor 0, numbers outside 0..7 and closed ones are refused; files and directories answer -1, any other call reaches a driver that is set |
| OpenFiles.StepInFiles | student-distrib/file_sys_driver.c:71-92 | every step keeps every open file's descriptor of every process on an existing inode, with its position inside the file |
| ProcessReads.ReadsInterleaved | student-distrib/file_sys_driver.c:71-92 | over any run of all terminals in which a process lives and keeps a file descriptor open, whatever its children, its other calls and other programs do, its reads through it deliver the next bytes of the file, each once and in order |
| ProcessReads.RunningTable | student-distrib/syscalls.c:69-97 | unless the process ends, an event changes its descriptors only as its own open, close or read does; ticks, executes and keys leave them |
| ProcessReads.OthersKeepTables | student-distrib/syscalls.c:106-369 | no event changes the descriptors of a process that is not running |
| FileSystem.SameName | student-distrib/file_sys_driver.c:245-260 | the comparison loop accepts exactly the name that ends at the first NUL or at 32 bytes, and no prefix |
| FileSystem.ReadDentryByName | student-distrib/file_sys_driver.c:223-286 | the first entry with that name, or none |
| FileSystem.LookupExact | student-distrib/file_sys_driver.c:223-286 | a lookup succeeds exactly for a nonempty string that is some entry's whole name, and gives the first such entry |
| FileSystem.DirectoryRead | student-distrib/file_sys_driver.c:175-193 | delivers the entry's listed bytes, advances the position by one, and fails without change behind the last entry |
| FileSystem.ListingIsName | student-distrib/file_sys_driver.c:183-190 | the listed bytes are the name cut to the buffer, unless and only unless a 32-byte name with nonzero type is listed with a larger buffer; then they are the name and the type byte |
| FileSystem.ListedNameIsFound | student-distrib/file_sys_driver.c:175-286 | every nonempty name listed with 32 bytes looks up to an entry of that same name |
| FileSystem.ContentsAt | student-distrib/file_sys_driver.c:337-348 | byte i of a file is byte i mod 4096 of its block i div 4096, where the contents are the blocks joined in order and cut to the length |
| FileSystem.ReadData | student-distrib/file_sys_driver.c:313-353 | fails exactly for length 0 or a missing block in the range; otherwise the count is what the 32-bit bound leaves, the bytes are the file's, and nothing else in the buffer changes |
| FileSystem.FileRead | student-distrib/file_sys_driver.c:71-92 | one read step of the file's contents from the position on; inode numbers above 64 are refused |
| FileSystem.ReadKeepsPosition | student-distrib/file_sys_driver.c:71-92 | for every count: none gives -1; one that does not wrap the 32-bit sum delivers the next bytes up to the end; a wrapping one moves the position back by the overflow, or is refused; the position stays within the file |
| FileSystem.ReadsAreConsecutive | student-distrib/file_sys_driver.c:71-92 | for any sequence of positive read sizes the bytes delivered are the next ones of the file, each once and in order |
| FileSystem.OpenFile.Read | student-distrib/file_sys_driver.c:71-92 | a read through an open file's position |
| FileSystem.Cat | syscalls/ece391cat.c:21-30 | reading 1024 bytes at a time until 0 writes out the whole rest of the file and ends |
| TextScreen.PutShows | student-distrib/lib.c:198-285 | for every byte and every log: if the screen shows the rows of the log from its top row on, with the cursor at its end, it does so after the byte is printed and fed to the log |
| TextScreen.BackShows | student-distrib/idt.c:285-323 | the same for the echo of a backspace and the log with its last character taken back, also across the start of a row |
| TextScreen.BackspaceUndoesExactly | student-distrib/idt.c:285-323 | a backspace after a character restores the rows of the log, and the window too exactly if that character did not scroll the page |
| TextScreen.BackErasesOneCell | student-distrib/idt.c:285-317 | a backspace blanks exactly the cell before the cursor, across row starts too, and says where the cursor goes |
| TextScreen.ScreenShowsWrappedText | student-distrib/lib.c:198-285 | from a cleared screen any text without carriage returns shows as the last 25 rows of its lines wrapped at 80 columns, tabs dropped, with the cursor at its end |
| TextScreen.WrappedGrow | student-distrib/lib.c:258-274 | wrapping a text with one more character is wrapping the text and adding the character to its rows |
| TextScreen.ReturnIsNewlineExactly | student-distrib/lib.c:215-235 | printing a carriage return leaves the screen as printing a newline does exactly above the bottom row, the last cell of the page included |
| TextScreen.ReturnIsWrittenOnBottomRow | student-distrib/lib.c:220-274 | on the bottom row a carriage return leaves the screen a letter would, with 13 in the letter's cell |
| TextScreen.NoWriteLeavesCells | student-distrib/lib.c:198-285 | whatever is printed, erased and wiped, no byte behind the 4000 of the cells changes |
| TypedLine.ScreenShowsTheLine | student-distrib/idt.c:194-323 | after any keys typed and erased during a read, a screen that showed its log shows the old rows continued by exactly the line the read will deliver, wrapped at 80 columns |
| PrivateScreens.OthersNeverShow | student-distrib/scheduling.c:120-194 | over any run, a terminal's page changes only by its own output, typing, erasing, clearing or user stores: no switch or other terminal alters it |
| PrivateScreens.RotationsPassItRound | student-distrib/scheduling.c:210 | after n rotations from terminal t the scheduled terminal is (t + n) mod 3 and the displayed one that of the last switch, whatever other events come between |
| PrivateScreens.MappedExactly | student-distrib/syscalls.c:560-583 | over any run, a terminal's page is mapped for its programs exactly from the first switch, or the first vidmap of a process of that terminal, on |
| PrivateScreens.StoreChangesOneByte | student-distrib/syscalls.c:560-583 | a store through the mapping changes the byte at its offset on the scheduled terminal's page, and no other byte of any terminal |
| PrivateScreens.ReturnKeepsCursorExactly | student-distrib/scheduling.c:127-136 | over any hidden spell of a terminal: entering it again puts its cursor where it was left, or in column 7 if one of its processes halted to its parent meanwhile, so the cursor is kept exactly if its own background output has led there |
| PrivateScreens.HiddenRun | student-distrib/syscalls.c:174-176 | while a terminal is hidden its cursor moves as its output says, its saved row stays, and its saved column changes only by a halt to a parent |
| PrivateScreens.EachShowsItsOwnLog | student-distrib/scheduling.c:120-212 | in any interleaving of output, typing, erasing, clearing, switches, rotations, halts and mappings in which no switch enters the terminal after it printed, or a process of it halted to its parent, while hidden, and no program stores on its page, the terminal goes on showing its own log with exactly its own input recorded |
| Display.Display.PutOn | student-distrib/lib.c:198-285 | the nested loops of the print routine do one print on the given page and cursor and touch no other byte or cursor |
| Display.Display.ScrollUp | student-distrib/lib.c:236-257 | the page scrolls by one row, blank last row, and no byte outside the 4000 changes |
| Display.Display.PutC | student-distrib/lib.c:198-285 | output changes only the scheduled terminal's screen |
| Display.Display.PutCKb | student-distrib/lib.c:292-371 | echo changes only the displayed terminal's screen |
| Display.Display.EraseKb | student-distrib/idt.c:285-323 | the echo of a backspace, read from the hardware cursor, erases one cell of the displayed terminal's screen only |
| Display.Display.Clear | student-distrib/idt.c:403-421 | clearing blanks only the displayed terminal's screen and homes its cursor |
| Display.Display.SwapPages | student-distrib/scheduling.c:127-134 | the two copies keep the page of every terminal, also when the terminal switched to is the one displayed |
| Display.Display.SwitchDisplay | student-distrib/scheduling.c:120-194 | one switch step of the private screens, after which each user mapping names the page that holds its terminal's screen |
| Display.SwapKeeps | student-distrib/idt.c:905-912 | through the two copies, where a terminal's page is found afterwards holds what it held before |
| Display.Display.PresetColumn | student-distrib/syscalls.c:174-176 | a halt's preset changes only the scheduled terminal's saved column |
| Display.Display.Vidmap | student-distrib/syscalls.c:553-589 | a mapping is made exactly for an address between the program image and 132 MB, and names the page that holds the scheduled terminal's screen |
| Display.Display.UserStore | student-distrib/syscalls.c:560-583 | a store through the mapping changes only the scheduled terminal's screen |
| Grep.StrNCmp | syscalls/ece391support.c:35-47 | zero exactly when the search string occurs at that place before the NUL |
| Grep.StrCpyDown | syscalls/ece391support.c:14-17 | the overlapping copy moves the string to the front of the buffer intact |
| Grep.SearchLine | syscalls/ece391grep.c:42-51 | prints the line once exactly if the string occurs in it |
| Grep.ScanBuffer | syscalls/ece391grep.c:28-57 | one buffer's worth is reported and the unfinished piece carried over: reports so far, plus the output of what remains, is the output of the whole |
| Grep.DoOneFile | syscalls/ece391grep.c:20-65 | for every file without NUL and every search string the output is that of the matching pieces of the file, in order and once each, whatever the chunk boundaries, and the loop ends |
| Grep.ShortLinesAreFound | syscalls/ece391grep.c:29-57 | with lines of at most 1024 bytes the matching pieces are the matching lines |
| Grep.GrepFindsLinesExactly | syscalls/ece391grep.c:29-57 | for every search string the lines printed are those that contain it, if and only if no line is longer than 1024 bytes |
| Grep.OutputReadsBack | syscalls/ece391grep.c:45-48 | read back as lines, the output has one line for each hit, in order: the file's name, a colon and the hit |
| Grep.MatchesIsContaining | syscalls/ece391grep.c:42-44 | a line is a hit exactly if it is something, the nonempty search string, and something |
| Grep.PiecesKeepEveryByte | syscalls/ece391grep.c:29-57 | the pieces searched, put together, are the file without its newlines: cutting long lines loses nothing |
| Blinkers.PhaseAfter | fish/blink.S:49-99 | state and remaining ticks of one blinker n of its ticks after it was added, for all 16-bit lengths |
| BlinkBoard.OnlyTicksCount | fish/blink.S:49-300 | over any run of additions, removals, syncs and ticks that neither removes nor resyncs it, a blinker is what the ticks alone make of it |
| BlinkBoard.AddedBlinksInPeriod | fish/blink.S:49-184 | over any such run after it was added, with n ticks in it, a blinker with lengths 1..32768 is on exactly when n mod (on+off) < on; any other length counts as 1 |
| BlinkBoard.AddOutcome | fish/blink.S:105-184 | adding succeeds exactly for a location below 2000 while fewer than 2000 blinkers live; the new one is on, comes before all others, draws one cell and is what its location finds |
| BlinkBoard.RemoveOutcome | fish/blink.S:187-237 | removing succeeds exactly if a blinker has the location; then the most recently added one of them, and no other, is gone, the others in their order and the screen as it was |
| BlinkBoard.RemovedIsGone | fish/blink.S:187-237 | with one blinker to a cell, a removed location is found no more |
| BlinkBoard.RemoveUndoesAdd | fish/blink.S:187-237 | removing a location right after adding there restores the list |
| BlinkBoard.SyncOutcome | fish/blink.S:240-300 | a sync succeeds exactly if both locations have a blinker; the target takes the source's lengths, countdown and status, keeps its place and characters, and draws its off character; all else stays |
| Blinkers.BlinksInPeriod | fish/blink.S:49-99 | the same law for one blinker and its own ticks |
| Blinkers.PeriodIsKeptExactly | fish/blink.S:64-66 | that law holds for all n if and only if both lengths are in 1..32768 |
| BlinkBoard.StayInStep | fish/blink.S:49-99 | two blinkers with equal lengths, status and countdown stay equal over every run that neither removes nor resyncs them |
| BlinkBoard.SyncedStayInStep | fish/blink.S:240-294 | a successful sync puts the target in step with its source, and there it stays |
| BlinkBoard.TickDrawsExactly | fish/blink.S:58-90 | a tick leaves in each cell the state of the last blinker in the list that changes there, and touches no other cell and no attribute byte |
| BlinkBoard.ShownIsKept | fish/blink.S:49-237 | a tick, a removal or an addition in a free cell leaves every blinker's cell showing its present state if it did before |
| BlinkBoard.ShownOverRun | fish/blink.S:49-300 | the same over any run of them, and of syncs whose source is off or whose target's characters are the same |
| BlinkBoard.SyncShowsExactly | fish/blink.S:277-286 | after a sync the screen is right exactly if the source is off or the target's two characters are the same |
| BlinkList.FreeExactly | fish/fish.c:160-170 | the arena has a free slot exactly when the list has fewer than 2000 nodes |
| BlinkList.InsertLinked | fish/blink.S:156-162 | pushing a slot in front keeps the list acyclic, duplicate-free and made of exactly the slots in use, with the new value first |
| BlinkList.RemoveLinked | fish/blink.S:206-223 | relinking the predecessor and zeroing the slot removes exactly that node and makes its slot free |
| BlinkList.LocationZeroLoops | fish/blink.S:131-162 | a blinker at location 0 leaves a list that is no list of the slots in use, and the next addition links its slot to itself |
| BlinkList.BlinkList.constructor | fish/fish.c:21-28 | the zeroed arena is the empty list |
| BlinkList.BlinkList.Malloc | fish/fish.c:160-170 | the lowest free slot, or none |
| BlinkList.BlinkList.Add | fish/blink.S:105-184 | one addition to the list and screen; what location 0 does instead |
| BlinkList.BlinkList.FindHelper | fish/blink.S:351-379 | the slot of the most recently added blinker at the location, or none |
| BlinkList.BlinkList.Find | fish/blink.S:302-349 | a copy of the most recently added blinker at the location |
| BlinkList.BlinkList.Remove | fish/blink.S:187-237 | one removal from the list; after a success the slot of the blinker found has location 0, is out of the list, and can be allocated again |
| BlinkList.BlinkList.Sync | fish/blink.S:240-300 | one sync on the list and screen; fails exactly when either location has no blinker |
| BlinkList.BlinkList.Tick | fish/blink.S:49-99 | every blinker in the list makes one tick, head first, and those that change state draw |
| LineEditor.EditedOk | student-distrib/idt.c:194-323 | whatever keys are typed, the line stays within 127 bytes and free of line ends |
| LineEditor.EditedIsTyped | student-distrib/idt.c:194-212 | without backspaces the line is what was typed, a tab being four spaces, cut at 127 bytes |
| LineEditor.BackspaceUndoesExactly | student-distrib/idt.c:285-323 | a backspace takes back the key before it exactly if that key added one byte |
| LineEditor.IdleBackspaces | student-distrib/idt.c:286-297 | backspaces with the cursor in the top left corner, or on an empty line, change nothing in any sequence of keys |
| LineEditor.Editor.Press | student-distrib/idt.c:173-323 | one key on the line, if a read is active |
| LineEditor.Editor.PressTab | student-distrib/idt.c:194-207 | the loop inserts four spaces or as many as there is room for |
| LineEditor.Editor.PressEnter | student-distrib/idt.c:326-343 | ends the line, if a read is active, and keeps it in the buffer for the read |
| LineEditor.Editor.ReadPass | student-distrib/terminal.c:37-89 | a read returns exactly when Enter was pressed and the caller has room for the line; it delivers the line with spaces as NUL and a newline, and empties the buffer |
| LineEditor.CommandIsFirstWord | student-distrib/terminal.c:53-71 | once its newline is overwritten by NUL, a delivered line is the string of its first word |
| LineEditor.ShellCommand | syscalls/ece391shell.c:16-27 | after the shell's cut its buffer holds the first word of the line typed as a string, and nothing else changes |
| LineEditor.Editor.GetArgs | student-distrib/syscalls.c:506-544 | the argument bytes of the last line read, NUL-padded, or -1 with a zeroed buffer; a success uses them up |
| LineEditor.ArgumentsAreSecondWord | student-distrib/syscalls.c:506-544 | they are the second word, missing exactly when there is no space or two in a row, complete exactly when the buffer also holds the command; with a buffer no longer than the command, the command's own beginning |
| VirtualRtc.ReturnsCostTicks | student-distrib/rtc.c:43-128 | in any interleaving of the three terminals, k returns at a steady frequency cost at least k periods of ticks less what had been gathered |
| VirtualRtc.ReturnsArePeriodsApart | student-distrib/rtc.c:106-128 | k more returns after a return take at least k periods |
| VirtualRtc.NextReturn | student-distrib/rtc.c:106-128 | a program back d ticks after a return finds the flag up n ticks later exactly if d or n is a period: exactly one period when it comes back at once |
| VirtualRtc.WrittenFrequencyHolds | student-distrib/rtc.c:106-152 | a program writes a frequency f, whatever its clock was: after its first return, k more returns take at least k periods of 512/f ticks over every run without another write of its own, and a busy loop attains that |
| VirtualRtc.OthersWritesUnseen | student-distrib/rtc.c:136-152 | a write to another terminal changes neither the returns nor the clock of this one |
| VirtualRtc.FrequencyIsExact | student-distrib/rtc.c:106-152 | after a write of f and the first return, the least number of ticks in which f more reads return, over all runs of the three terminals, is 512 exactly if f divides 512 |
| VirtualRtc.Driver.Handler | student-distrib/rtc.c:43-69 | all three clocks make one tick, counters wrapping as 32-bit integers |
| VirtualRtc.Driver.ReadLook | student-distrib/rtc.c:113-124 | the read returns exactly when its own flag is up, and resets only its own clock |
| VirtualRtc.Driver.WriteFrequency | student-distrib/rtc.c:136-152 | sets only its own terminal's period, and only for four bytes |
| Numbers.NumeralRoundTrip | student-distrib/lib.c:381-409 | for every number and radix 2..36 the digits printed denote the number, with no leading zero |
| Numbers.NumeralIsUnique | student-distrib/lib.c:381-409 | printing what a numeral denotes gives the numeral back |
| Numbers.DigitIsLookup | student-distrib/lib.c:382 | the digits are those of the table 0..9, A..Z |
| Numbers.StrRev | student-distrib/lib.c:417-429 | the string is reversed in place and no other byte changes |
| Numbers.Itoa | student-distrib/lib.c:381-409 | the buffer holds the number's numeral and a NUL, and no other byte changes |
| Numbers.EightDigits | student-distrib/lib.c:73-98 | for every 32-bit number, zeros and numeral together are eight digits that denote it |
| Numbers.AlternateHex | student-distrib/lib.c:84-98 | `%#x` leaves a string of exactly eight hexadecimal digits of value v |

## Left out

- Hardware: port I/O, PIC, PIT and CRT registers, descriptor bit layouts, TLB flushes.
- Register plumbing at halt: the status value, the exception flag and the 256 it stands for; only the frame resumed is modelled.
- Kernel.Kernel.Execute: does not model loading the image into memory, the entry point, or the caller's command string being zeroed.
- Kernel.Kernel.Halt: the keyboard index and prompt flags it resets are not part of the process model; the cursor preset is in Display.
- Kernel.Kernel.Tick: the copies and mappings of a switch are in Display; printing of quotes is left out.
- Kernel.Kernel.Write: writes to the terminal and the clock are not followed through the jump table.
- Kernel.Kernel.Read: reads of the terminal and the clock are handed to modules LineEditor and VirtualRtc, not followed through the jump table.
- Boot ticks with a system call between them: the no-parent flag would then belong to the wrong process.
- Display.Display.Vidmap: for an address from 128 MB up to the program image the code returns what the pointer held; the model returns no mapping.
- Display.Display.EraseKb: the bookkeeping of the row where the typed line began (`og_x`, `og_y`, `next_row_flag`) is one Boolean parameter, and an empty line makes no echo.
- Display.Display.constructor: the boot values of the saved cursors are not those of the first three ticks; every theorem is for arbitrary saved cursors.
- PrivateScreens.EachShowsItsOwnLog: it starts from a screen that shows its log. At boot only the attribute bytes of the backing pages are written, so terminals 1 and 2 show a blank log only if memory was blank; a terminal does after CTRL+L on it.
- TypedLine.ScreenShowsTheLine: the echo of a backspace is that of a row of the typed line; the bookkeeping of where the line began is not modelled, and neither is the newline echoed by Enter.
- WholeSystem.AlwaysAgree: what the kernel itself prints, such as the message of a served CTRL+C, is an output like any other, not derived from the step that prints it.
- Up-arrow history, severance quotes, and the key table with shift and caps lock.
- LineEditor.Editor.Press: one terminal; keys typed between Enter and the end of the read are excluded, since they overwrite the line being handed over, and so is CTRL+L, which ends the read with an empty line.
- LineEditor.Editor.GetArgs: the argument buffer is shared by the three terminals; the model follows one.
- LineEditor.Editor.ReadPass: one pass over the buffer is one step; the caller's buffer has at least 128 bytes, as the code copies that many from it.
- Grep.DoOneFile: files with a NUL byte, the error messages for open and close, and a buffer whose last byte happens to hold a newline at the start.
- BlinkList.BlinkList.Add: location 0 is described, and then excluded from the list invariant.
- BlinkBoard.ShownIsKept: blinkers that share a cell are excluded, as they overwrite each other.
- FileSystem.ReadDentryByName: directory entries are records; the copy of a 32-byte name over the type field is undone at once by the code.
- VirtualRtc.Driver.ReadLook: the two resets after the loop are one step; frequency 0 is a divide error.
- The set_handler and sigreturn stubs, exception messages, and the programs ls, hello, counter, pingpong and the host emulation: they add no state.
