# Verified models of mini-os32

mini-os32 is a small 32-bit operating system with its own C compiler, linker and
assembler. This project models its five hardest parts in Dafny and proves properties of
the models. Each part has a specification (datatypes, functions and lemmas) and, where the
source works by changing state, the methods or classes that do the work, proved against
that specification.

- **C compiler** (`Cc*.dfy`, `X86.dfy`, `Patching.dfy`). Expressions and statements over
  32-bit scalars, pointers, arrays and record members; a source semantics (memory to
  memory, with fuel for loops); the generator's output as instructions with labels; the
  processor at two levels, labelled instructions and patched bytes; the code buffer with
  `labels_pos`, `fixups` and `locals` as a class (`CcBuffer`). `CcUnit` ties source to bytes:
  a compiled function returns what its source returns, and runs for ever if its source does.
  `CcMeaning` asks when the compiler's own typing is that of ISO C11, `CcFold` when the
  constant folder agrees with the code, `CcCall`, `CcArgs` and `CcSlots` treat calls and frames.
- **Linker, ELF writer and loader** (`Linker.dfy`, `LinkerOps.dfy`) and **conditional
  inclusion** (`PpCond.dfy`, `PpOps.dfy`).
- **Kernel** (`Store`, `Disk`, `Fs`, `FsOps`, `Stream`, `Threads`, `ThreadOps`, `Paging`,
  `PagingOps`, `PagingCalls`) and **NVMe driver** (`NvmeRing`, `NvmeDriver`, `NvmeRw`,
  `NvmeStore`): the RAM disk and its mirror, the flat file system as a map from names to
  bytes, the sector cache of open files, the round-robin scheduler, the two address spaces,
  and the completion queues.
- **Assembler** (`As*.dfy`): ModRM/SIB encoding against a decoder, instruction sizes, the
  passes.
- **Heap** (`Heap.dfy`, `HeapOps.dfy`): the free list in the heap's own memory.

`dafny verify dfyconfig.toml` checks everything.

## Findings

Properties the documentation or the design suggests that the code does not have in full.
Each has a concrete witness and a condition under which the property holds.

| property | fails on (witness) | holds exactly when |
|---|---|---|
| expressions have the types of ISO C11 | `-1 >> u` (`CcMeaning.UnsignedCountShifts`), `(1 ? p + 1 : p) + 1` (`CcMeaning.PointerArmGuessed`), `(1 ? p : 0) + 1` (`CcMeaning.NullArmGuessed`), `0xFFFFFFFF > 0` (`CcMeaning.UnsignedConstantSigned`), `0 && 1 / 0` (`CcMeaning.DeadDivisionRefused`) | every node satisfies `NodeConforms`: no unsigned constant, no shift whose count alone is unsigned, no literal zero divisor, both arms of `?:` guessed right from their shape (`CcMeaning.ConformsExactly`) |
| `lv op= e` and `lv++` evaluate `lv` once (the comment at user/cc.c:1706-1711 admits it) | `(*++p)++` (`CcMeaning.StepTwice`) | proved for every `lv` without an assignment inside (`CcMeaning.OpAssignMeans`, `CcMeaning.PostStepMeans`) |
| a declaration ends with its block | a declaration in a switch body (`CcStmtProof.SwitchLeaks`) | the statement leaks no declaration (`CcStmtProof.LeaksScope`) |
| the folder agrees with the generated code | `(1 ? -1 : u) < 0` (`CcFold.UnchosenArmCounts`) | for one operator: it is not both unsigned and one that treats signed and unsigned differently (`CcFold.OperatorAgrees`) |
| `va_start` points at the first variadic argument | an empty record as last named parameter (`CcArgs.EmptyRecordLast`) | the last named parameter is not an empty record (`CcArgs.VaStartExact`) |
| no write leaves the store partition | a wrapping request at the top of the drive (`Store.WrappedRequestEscapes`); no caller makes one (`Store.OnlyLongRequestsWrap`, `Fs.SavesDoNotWrap`) | the block numbers do not wrap around 2^64 (`Store.ThroughExact`) |
| a saved file reads back | a full disk (`Stream.FullDisk`): the write is dropped and the call still returns 0 (`Fs.SaveLoses`) | the disk has room where the allocator puts the file (`Fs.SaveExact`) |
| opening for writing keeps keys unique | a name of 16 characters whose first 15 name another file: the entry keeps only 15 (`Stream.SixteenthCut`) | the cut name is no other file's (`Stream.OpenExact`) |
| a thread's exit leaves the others running | the others all sleep (`Threads.SleeperAbandoned`) | another thread can run at that tick (`Threads.ExitEnds`) |
| a sleeping thread is not chosen early | a wake tick of 0 modulo 2^32 (`Threads.ZeroTarget`) | the wake tick is not 0 modulo 2^32 (`Threads.ZeroTarget`, `Threads.NotEarly`) |
| whatever the controller does, a submission takes its own completion | a submission after a timed-out one, whose command is completed first (`NvmeRing.LateCompletion`) | no earlier submission was given up: after one there is always a schedule that completes an older command first (`NvmeRing.OwnExactly`, `NvmeRing.OlderFirst`) |
| "the two passes cannot disagree" (user/as.c:12-16) | `.ascii "A"; .align x; l: .equ x, 4` (`AsPasses.SymbolicAlign`) | proved for constant `.align` operands (`AsPasses.PassesAgree`) |
| a kernel device mapping stays in its window | 2^32 - 4095 bytes at a page boundary (`PagingCalls.KernelWindowLeft`) | offset and size do not lie in the 4095 bytes below 2^32, where rounding up wraps and the total does not (`PagingCalls.KernelWindowExact`) |
| a device mapping reaches every byte of the device | 2^32 - 1 bytes from the last byte of a page (`Paging.OnePageOnly`) | the sum of size and offset in the page is less than 2^32 (`Paging.CoversExact`) |
| the framebuffer stays in its window | 64 MB one byte into a page (`PagingCalls.ScreenSpills`) | offset and size together fit 64 MB (`PagingCalls.ScreenWindowExact`) |
| the line map names the right file | a 25th file (`PpOps.TooManyFiles`), or a name of 64 characters (`PpOps.LongNameLost`) | the name is known, or there is room and it has at most 63 characters (`PpOps.AddedGives`) |
| `malloc` returns at least the requested size | 0x7FFFFFFF bytes with a 4-byte block on the free list (`Heap.SmallForHuge`) | the request is at most 0x7FFFFFFC bytes (`Heap.MallocInv`); above that the first free block is handed out (`Heap.HugeTakesFirst`) |

Also: saving under the empty name succeeds and changes no file, and renaming to the empty
name deletes (`Fs.SaveKeeps`, `Fs.RenameKeeps`).

## Model

| member | source | states |
|---|---|---|
| CcExprProof.ExprRuns | user/cc.c:2464-2847 | the code of an expression pushes exactly one slot with the source value, leaves the source's memory and the rest of the stack; skipped operands have no effect |
| CcExprProof.AddrRuns | user/cc.c:2401-2462 | the code of an lvalue pushes its address |
| CcExprProof.LogicalRuns | user/cc.c:3195-3226 | `gen_logical` reaches the true or the false label by the operand's truth, the stack unchanged |
| CcExprProof.CondRuns | user/cc.c:2852-2872 | `gen_cond` falls through or reaches the false label, the stack unchanged |
| CcStmtProof.StmtRuns | user/cc.c:3251-3497 | every outcome of a statement (fall through, break, continue, return) is reached at its label with the stack balanced and the source's memory; a source that needs more than n iterations runs for more than n steps |
| CcStmtProof.LeaksScope | user/cc.c:3251-3497 | the scope after a statement is the one before exactly when it leaks no declaration |
| CcStmtProof.SwitchLeaks | user/cc.c:3424-3497 | a declaration in a switch body hides the outer name afterwards |
| CcFunction.FunRuns | user/cc.c:3563-3625 | from a function's entry to its `ret`: result in eax, objects as the source leaves them, the caller's esp, ebp and return address intact |
| CcFunction.FunDiverges | user/cc.c:3563-3625 | a function whose source goes on for ever never returns and never stops |
| CcLabels.UnitLabelsUnique | user/cc.c:638-646 | every label of a unit is set once |
| CcClosed.UnitClosed | user/cc.c:638-660 | every jump of a unit names a label that is set |
| CcBytes.DecodeEnc | user/cc.c:352-370 | decoding an emitted instruction gives it back, with its length |
| CcBytes.RelReaches | user/cc.c:3794-3805 | a patched rel32 decodes to a jump to its label |
| CcBytes.RunBytes | user/cc.c:3794-3805 | the patched bytes run as the labelled code does |
| CcPatch.PatchedImage | user/cc.c:3794-3805 | filling in all jump distances and addresses gives the image of the labelled code |
| Patching.PatchReads | user/cc.c:4634-4639 | words written at places that do not overlap all read back |
| CcBuffer.Buffer.GenExpr | user/cc.c:2464-2847 | appends exactly the specified code, and returns the type, or stops exactly where the type rules do |
| CcBuffer.Buffer.GenStmt | user/cc.c:3251-3497 | accepts exactly the well-typed statements with targets for break and continue, and appends exactly their code |
| CcBuffer.Buffer.GenFun | user/cc.c:3563-3625 | appends prologue, body and epilogue, with the final frame size in the prologue |
| CcBuffer.Buffer.ApplyFixups | user/cc.c:3794-3805 | after the loop every recorded place holds target minus end of the place |
| CcUnit.CompileUnit | user/cc.c:4458-4589 | yields an image of all functions exactly when every one is accepted |
| CcUnit.CompiledRuns | user/cc.c:3563-3805 | a call of a compiled function executes the image's bytes to a `ret` with the source's result and memory |
| CcUnit.CompiledDiverges | user/cc.c:3563-3805 | if the source goes on for ever the bytes run for any number of instructions |
| CcMeaning.ConformsExactly | user/cc.c:1579-1653 | the compiler's types are those of ISO C11 at every node exactly when every node conforms, a condition on shapes and C types |
| CcMeaning.MeaningAgrees | user/cc.c:2550-2575 | where the types agree the value does, from any memory |
| CcMeaning.ConformingRuns | user/cc.c:2464-2847 | the code of a conforming expression computes C's value |
| CcMeaning.UnsignedCountShifts | user/cc.c:2694-2710 | `-1 >> u` shifts in zeros, where C keeps the sign |
| CcMeaning.PointerArmGuessed | user/cc.c:1627-1636 | `(1 ? p + 1 : p) + 1` adds one byte, where C adds one element |
| CcMeaning.NullArmGuessed | user/cc.c:2125-2132 | `(1 ? p : 0) + 1` adds one byte, where C adds one element |
| CcMeaning.UnsignedConstantSigned | user/cc.c:1661-1666 | `0xFFFFFFFF > 0` is false, where C says true |
| CcMeaning.DeadDivisionRefused | user/cc.c:2686-2688 | `0 && 1 / 0` is refused, where C says 0 |
| CcMeaning.OpAssignMeans | user/cc.c:1702-1737 | for an lvalue without assignments the desugared `op=` is load, operate, store, once |
| CcMeaning.PostStepMeans | user/cc.c:1734-1737 | the postfix form yields the value before the step |
| CcMeaning.StepTwice | user/cc.c:1702-1711 | `(*++p)++` moves `p` twice |
| CcFold.FoldEvals | user/cc.c:1988-2033 | under the guard evaluation gives the folded value and leaves memory alone, short circuits included |
| CcFold.FoldedRuns | user/cc.c:1988-2033 | the code of a folded expression pushes the folded value |
| CcFold.OperatorAgrees | user/cc.c:2012-2032 | an operator's code agrees with the folder on all values exactly when it is not both unsigned and sign-sensitive |
| CcFold.UnchosenArmCounts | user/cc.c:2003-2007 | `(1 ? -1 : u) < 0` folds to 1 and its code gives 0 |
| CcCall.ArgsRun | user/cc.c:2363-2385 | the argument code pushes all values, the first on top |
| CcCall.ParamReads | user/cc.c:3579-3590 | inside the callee, parameter k reads as argument k |
| CcCall.CallRuns | user/cc.c:2363-2398 | for every callee, with locals or without, returning a value or not: if its source comes to an end in the state the call brings about, arguments, its run and the cleanup together push one slot with its result (or what eax holds) and restore esp; its locals start with whatever the stack holds |
| CcCall.LocalCalled | user/cc.c:3563-3625 | a callee with an initialised local, called anywhere, ends and returns it |
| CcArgs.ParamHolds | user/cc.c:2238-2251 | with records passed by value, each parameter's offset holds exactly its argument's bytes |
| CcArgs.VaStartExact | user/cc.c:2299-2320 | `va_start` finds the first variadic argument exactly when the last named parameter is not an empty record |
| CcArgs.EmptyRecordLast | user/cc.c:2307-2314 | with an empty record last `va_start` is one word too far |
| CcArgs.VaArgs | user/cc.c:2576-2599 | the k-th `va_arg` of a 4-byte type is the k-th variadic argument |
| CcSlots.FrameSlotsApart | user/cc.c:1226-1255 | locals and switch temporaries of a body never overlap and lie in the frame |
| Linker.LocalPatched | user/cc.c:4722-4747 | the place of a local relocation holds the target address, or the distance from its own end |
| Linker.SymbolPatched | user/cc.c:4722-4747 | the same for a symbol and its definition |
| Linker.LoadElf | user/cc.c:3807-3851 | what the loader makes of the file the ELF writer writes: headers, image, zeros, entry |
| Linker.LoadedLocal | kernel/kernel.c:2908-2949 | in memory the place of a local relocation holds the right word |
| Linker.LoadedSymbol | kernel/kernel.c:2908-2949 | in memory the place of a symbol relocation holds the right word |
| Linker.LoadedRest | kernel/kernel.c:2908-2949 | every other section byte is its object's, and bss is zero |
| Linker.StartsAtStub | user/cc.c:4591-4625 | the entry is the stub's first byte and its call reaches `main` |
| LinkerOps.LinkObjects | user/cc.c:4650-4771 | succeeds exactly when totals fit, no name is defined twice and every symbol is defined; the sections are then the linked image |
| LinkerOps.LoadProgram | kernel/kernel.c:2908-2949 | the loader's loop leaves memory as specified |
| PpCond.SelectsRightGroups | user/cc.c:4251-4426 | on well nested files at most 16 deep the two arrays select exactly the groups section 6.10.1 of ISO C11 selects, across includes |
| PpCond.Skipped | user/cc.c:4251-4426 | lines under an inactive group change nothing |
| PpOps.Conditional | user/cc.c:4343-4408 | one conditional line updates the two arrays as the stack specification says |
| PpOps.Preproc.ProcessFile | user/cc.c:4251-4426 | the loop over a file's lines is the specified run, with the line map of its output |
| PpOps.AddedGives | user/cc.c:389-405 | a new entry gives its file and line exactly when the name is known or there is room for it whole |
| PpOps.TooManyFiles | user/cc.c:389-405 | the line from the 25th file gets the name of the first |
| PpOps.LongNameLost | user/cc.c:397-398 | a name of 64 characters is cut |
| PpOps.MapGives | user/cc.c:389-405 | within the limits every line of output maps to its file and line |
| Store.ThroughExact | kernel/kernel.c:1505-1519 | a write-through starts after the header and ends inside the partition exactly when block numbers do not wrap around 2^64 |
| Store.ThroughInside | kernel/kernel.c:1505-1519 | so no partition below the last 2^33 blocks is ever left, and every request the image covers is written |
| Store.WrappedRequestEscapes | kernel/kernel.c:1512-1525 | a request that passes both checks and runs past the partition |
| Store.WriteMirrors | kernel/kernel.c:1536-1544 | a write keeps store and RAM disk equal |
| Store.RunMirrors | kernel/kernel.c:1536-1544 | so does every run of writes, and no block outside the body changes |
| Store.RebootRestores | kernel/kernel.c:1585-1622 | a reboot after any run of writes brings the RAM disk back |
| Disk.Disk.Write | kernel/kernel.c:1536-1544 | the copy loops do what the specification says, dropping out-of-range requests |
| Disk.Disk.ScanDevice | kernel/kernel.c:1556-1606 | the partition scan adopts exactly the specified entry |
| Disk.Disk.Boot | kernel/kernel.c:1610-1622 | after a boot that adopts the store the RAM disk is its contents |
| Disk.Disk.Sync | kernel/kernel.c:2365-2373 | a successful sync makes the store a mirror |
| Fs.DirRound | kernel/kernel.c:1624-1625 | reading back the directory sectors gives the cached directory |
| Fs.SaveKeeps | kernel/kernel.c:1687-1718 | a save with room replaces or adds exactly that file and keeps the invariant |
| Fs.DeleteKeeps | kernel/kernel.c:2557-2568 | a delete removes exactly that file |
| Fs.RenameKeeps | kernel/kernel.c:2539-2556 | a rename moves the bytes exactly when the old name exists and the new one does not |
| Fs.SaveExact | kernel/kernel.c:1687-1718 | every file of a size reads back exactly when the disk has room for it |
| Fs.SaveLoses | kernel/kernel.c:1536-1541 | without room what is stored does not depend on the data |
| Fs.SavesDoNotWrap | kernel/kernel.c:1687-1709 | what a save asks of the disk never wraps around 2^32 |
| Fs.RunRefines | kernel/kernel.c:2495-2568 | over every run the volume is a map from 16-character case-folded keys to bytes, result codes are the map's, and the directory on disk is the cached one |
| Fs.FilesSurvive | kernel/kernel.c:1610-1625 | after any run, power-off and boot the map is the same |
| FsOps.NameEqCi | kernel/kernel.c:311-321 | names are equal exactly when their keys are |
| FsOps.FileSystem.Save | kernel/kernel.c:2506-2516 | does the specified step |
| FsOps.FileSystem.Load | kernel/kernel.c:2495-2505 | returns the file's bytes, or fails when it is missing or too long |
| FsOps.FileSystem.Delete | kernel/kernel.c:2557-2568 | does the specified step |
| FsOps.FileSystem.Rename | kernel/kernel.c:2539-2556 | does the specified step |
| Stream.OpenExact | kernel/kernel.c:2754-2804 | opening for writing keeps the volume well formed exactly when the cut name is no other file's |
| Stream.SixteenthCut | kernel/kernel.c:2785-2792 | on a disk with one file of 15 letters, opening the 16-letter name for writing makes two entries with one key |
| Stream.FullDisk | kernel/kernel.c:1687-1718 | on a disk without data sectors one byte saved does not read back |
| Stream.WriteParts | kernel/kernel.c:2754-2871 | however data is split into writes, the closed file is their concatenation and others are untouched |
| Stream.OpenFile.Fwrite | kernel/kernel.c:2830-2857 | a write extends what will be the file and changes no file yet |
| Stream.OpenFile.CloseWrite | kernel/kernel.c:2858-2871 | closing makes the file what was written |
| Stream.OpenFile.Fread | kernel/kernel.c:2805-2829 | a read returns the file's bytes at the position and advances it |
| Stream.OpenFile.Seek | kernel/kernel.c:2872-2888 | the position is clamped to the file |
| Stream.OpenFile.LoadSector | kernel/kernel.c:1732-1756 | the cache writes back, then holds the sector asked for |
| NvmeRing.FreshExactly | kernel/nvme.c:135-149 | the head entry's phase bit matches exactly when an unconsumed completion has been posted, and then it is the oldest |
| NvmeRing.Freshness | kernel/nvme.c:127-152 | in every interleaving without a timeout the k-th submission returns the k-th command's status |
| NvmeRing.OwnExactly | kernel/nvme.c:127-152 | a command just sent is sure to get its own completion, over every schedule of the controller, exactly when no earlier submission was given up |
| NvmeRing.OlderFirst | kernel/nvme.c:127-152 | after a loss the controller has a schedule that gives the next submission an older command's completion |
| NvmeRing.LateCompletion | kernel/nvme.c:127-152 | a run in which the second command returns the first one's status |
| NvmeRing.OwnStatus | kernel/nvme.c:135-149 | the status consumed is that of the oldest completion not consumed before, and without a loss it is the waiting command's own |
| NvmeDriver.Queue.Submit | kernel/nvme.c:127-152 | one submission against any controller schedule: sends the command, takes the oldest unconsumed completion |
| NvmeRw.Controller.Execute | kernel/nvme.c:316-336 | the controller, following the PRP entries, moves exactly the bounce buffer's bytes |
| NvmeRw.Controller.Rw | kernel/nvme.c:338-355 | a chunked write changes exactly blocks [lba, lba + count) to the buffer's bytes; a read fills the buffer; success exactly when the range exists |
| NvmeStore.NvmeWrite | kernel/nvme.c:338-358 | the driver's write is the device write the store relies on |
| NvmeStore.FetchedIsSlice | kernel/nvme.c:338-357 | the driver's read is the range of sectors the store relies on |
| Threads.StepInv | kernel/kernel.c:2139-2262 | every event keeps: count equals used slots, the current thread is used, contexts are saved, timing |
| Threads.Isolation | kernel/kernel.c:2207-2262 | only a thread's own computing and its creation change its registers |
| Threads.RunIsolated | kernel/kernel.c:2207-2262 | over every run each thread's registers, saved or running, are its own |
| Threads.ExitEnds | kernel/kernel.c:2226-2244 | an exit keeps the program alive exactly when another thread can run now |
| Threads.SleeperAbandoned | kernel/kernel.c:2226-2244 | a run of four events that ends the program with a thread asleep |
| Threads.BoundedWaiting | kernel/kernel.c:2195-2224 | a thread that is awake, or whose wake tick has come and stays less than 2^31 ticks past, runs within as many user-mode ticks as its cyclic distance |
| Threads.DistBound | kernel/kernel.c:2207-2224 | that distance is at most seven |
| Threads.NotEarly | kernel/kernel.c:2195-2262 | over every run a switch goes only to a thread that has reached its wake tick, or whose wake tick is 0 modulo 2^32 |
| Threads.ZeroTarget | kernel/kernel.c:2616-2636 | a sleep whose target is 0 modulo 2^32 is none |
| Threads.PassedExact | kernel/kernel.c:2200-2203 | the wrapped comparison is the true one for targets less than 2^31 away |
| ThreadOps.Scheduler.Schedule | kernel/kernel.c:2207-2224 | the search loop is the specified choice |
| ThreadOps.Scheduler.ExitSwitch | kernel/kernel.c:2226-2262 | the exit path is the Exit event |
| Paging.MapPageEffect | kernel/kernel.c:373-387 | `map_page` maps its page and changes no other, except a shared table's twin |
| Paging.MapPhysEffect | kernel/kernel.c:399-406 | byte k of the device is found k bytes into the mapping; no page outside it changes |
| Paging.BootSafe | kernel/kernel.c:546-616 | start-up leaves the identity map whole, the guard page unmapped and the window's tables separate |
| Paging.RunSafe | kernel/kernel.c:399-434 | every run of fitting mappings keeps that |
| PagingCalls.RequestFits | kernel/kernel.c:2408-2443 | every accepted call fits its band, on pages no call since the program's start has taken |
| Paging.CoversExact | kernel/kernel.c:399-406 | a mapping reaches every byte exactly when the 32-bit total does not wrap |
| Paging.OnePageOnly | kernel/kernel.c:399-406 | 2^32 - 1 bytes from the last byte of a page get one page |
| PagingCalls.KernelWindowExact | kernel/kernel.c:417-434 | an accepted kernel device mapping stays in its window exactly unless rounding its size up wraps and its total does not |
| PagingCalls.KernelWindowLeft | kernel/kernel.c:417-434 | 2^32 - 4095 bytes are accepted and mapped over 2^20 pages |
| PagingCalls.ScreenSpills | kernel/kernel.c:495-503 | 64 MB one byte into a page reach the device window |
| PagingCalls.ScreenWindowExact | kernel/kernel.c:495-503 | the framebuffer stays in its window exactly when offset and size fit together |
| PagingCalls.TablesReachable | kernel/kernel.c:604-612 | every table made after start-up is identity-mapped in both spaces |
| PagingCalls.CallsSafe | kernel/kernel.c:2408-2443 | over every run of calls, whatever their arguments, all of this stands |
| PagingCalls.BootKept | kernel/kernel.c:568-616 | start-up establishes it |
| PagingOps.Spaces.MapUserSpace | kernel/kernel.c:546-566 | the loops of `map_user_space` do the specified mapping |
| AsModrm.RoundTrip | user/as.c:362-398 | a decoder reads back register field, length and effective address for all register contents |
| AsModrm.ModrmLength | user/as.c:362-398 | the encoding's length does not depend on symbol values |
| AsInsn.EncodeSize | user/as.c:453-726 | an instruction keeps its length and its acceptance between passes |
| AsInsn.BranchReaches | user/as.c:405-409 | a branch's last four bytes, counted from its end, reach the target |
| AsPasses.PassesAgree | user/as.c:915-932 | with constant alignments every statement starts at the same place in all three runs |
| AsPasses.LabelLands | user/as.c:1003-1008 | a label's address is where its bytes land |
| AsPasses.BranchLands | user/as.c:405-409 | in the final text every branch leads to the value of its target |
| AsPasses.SymbolsSettled | user/as.c:1010-1017 | in the last run every symbol has its final value at every statement, even before its `.equ` |
| AsPasses.RunAccepts | user/as.c:1014-1018 | the middle run, whose diagnostics are dropped, is accepted exactly when the last is |
| AsPasses.SymbolicAlign | user/as.c:12-16 | an accepted program whose passes disagree |
| AsOps.Assembler.Assemble | user/as.c:996-1018 | accepts exactly the specified programs and leaves the specified state |
| Heap.Sound | fs/lib/stdlib.c:26-51 | blocks are live or on the list once; no payload overlaps another block |
| Heap.ListEnds | fs/lib/stdlib.c:26-51 | following the links in memory visits the free blocks and ends |
| Heap.MallocInv | fs/lib/stdlib.c:26-44 | a request of any size gets a block nobody holds, with every live block's contents kept; the block is large enough exactly up to 0x7FFFFFFC bytes |
| Heap.HugeTakesFirst | fs/lib/stdlib.c:28-41 | above that the first free block is handed out, and without one the request fails |
| Heap.SmallForHuge | fs/lib/stdlib.c:26-44 | a run after which 2 GB - 1 get a block of four bytes |
| Heap.DoInv | fs/lib/stdlib.c:26-51 | every event keeps the heap sound and the other live blocks' contents |
| Heap.RunSound | fs/lib/stdlib.c:26-51 | over every run the list in memory is exactly the freed blocks |
| HeapOps.Allocator.Malloc | fs/lib/stdlib.c:26-44 | the pointer-to-pointer search and unlink do the specified step |
| HeapOps.Allocator.Free | fs/lib/stdlib.c:46-51 | pushes the block on the list |
| HeapOps.Allocator.Calloc | fs/lib/stdlib.c:53-61 | the bytes asked for are zero |
| HeapOps.Allocator.Realloc | fs/lib/stdlib.c:63-73 | the new block starts with the old contents |

## Left out

- CcCall.CallRuns: calls are not expressions of the source semantics, so CompiledRuns covers functions without calls inside; the lemma joins the caller's and the callee's runs by the processor's push and pop of the return address. A local not yet assigned holds what the stack holds, which C leaves open.
- CcArgs.VaArgs: covers 4-byte types only.
- CcFold.FoldedRuns: the guard is sufficient, not necessary, for a whole expression, since a later operator can cancel a disagreement; for one operator it is exact.
- CcMeaning.OpAssignMeans: an assignment inside the lvalue can still be harmless, so the condition is sufficient only.
- AsPasses.PassesAgree: a symbolic alignment can still happen to agree, so the condition is sufficient only.
- CcMeaning.ConformsExactly: decimal constants of 2^31 and above (`long long` in C) are outside the model, and where an expression breaks a constraint of the standard other than that of `?:` the C rule follows the compiler.
- HeapOps.Allocator.Calloc: excluded, as for realloc, is a request above 0x7FFFFFFC bytes with a block on the free list, for which malloc's block is too small and the fill or copy runs past it (`Heap.HugeTakesFirst`).
- NvmeDriver.Queue.Submit: excluded is the 64th command outstanding, which takes 63 earlier timeouts; the driver does not check for it.
- Disk.Disk.Write: the class keeps the device as an array of its own; that the driver's chunked transfer does to a device exactly what this class's device write does is `NvmeStore.NvmeWrite`.
- Stream.WriteParts: one writer, no seeks and no other allocation while it is open; the zero-fill test compares an absolute sector with a file-relative count otherwise.
- Paging.MapPageEffect: the physical address arithmetic of table pages is unbounded; `PagingCalls.Tables` shows they stay below 128 MB.
- PagingCalls.CallsSafe: `kern_map_uc` with one of the sizes for which KernelWindowExact shows that the window is left is excluded (the driver asks for 8 KB), and the check of the program's output pointer by the DMA call.
- Floating point, `char` and `short` values, casts, record values in expressions, string literals and `goto` in the compiler.
- Lexing and parsing of C and assembly text, table overflows, warnings; macro expansion and the `#if` evaluator are open functions of the preprocessor model.
- Symbolic scale factors and 16-bit operands in the assembler.
- The table of file descriptors, working directories, the ATA disk and the BIOS boot path.
- NVMe initialisation, the admin queue's commands, fatal controller status and error codes other than an out-of-range block.
- A partition table entry shorter than 48 bytes, whose fields the scan reads past its buffer (`Store.Undefined`).
- Interrupt counting, the program's trampoline, what is mapped write-combining, the contents of DMA buffers.
- The loader's checks of malformed program headers (`Linker.Loadable` asks that they lie in the file and in memory).
- Display, keyboard, timers, power, user-space programs.
