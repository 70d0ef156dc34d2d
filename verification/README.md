# A verified model of a small operating system that emulates a 6502

The system boots, mounts a FAT16 disk, opens a cartridge file on it, and runs the program in it on an emulated 6502
processor while a trace log records every instruction. This project models the four parts of it that carry state, and
the path from one to the next, and proves what each of them promises: for all inputs, over whole runs, and across
modules.

| files | what they model |
|---|---|
| `Bits`, `Division`, `Status` | machine integers and the bitwise operators of C, division by a variable, status codes |
| `OpcodeTable`, `Cpu`, `CpuCases` | the opcode table, and the processor as a table-driven machine on values |
| `Emulator` | the emulator object: fields and memory arrays, updated by the flat switch of `emulate_CPU`, which writes its bytes into the trace log; it refines the machine |
| `Mos6502`, `StepAgreement`, `StepEffects`, `CpuDeviations` | the documented 6502, written down independently in plain arithmetic, and exactly where a step of the emulator is not a step of it |
| `CpuRun`, `CpuArithmetic`, `CpuStack` | termination of `emu_run`, arithmetic on numbers of n bytes, and the stack over whole runs |
| `HeapTable`, `Heap`, `SingleBlocks`, `KernelHeap` | the block heap: a table of flag bytes that refines a map of disjoint allocations; allocations of one block each |
| `PageTables`, `Paging` | page tables that are built from blocks of the heap and refine a map from page to entry |
| `Streamer`, `FatVolume`, `FatDirectory`, `Fat16` | disk streams, cluster chains, directories and names, and the FAT16 driver on them |
| `FatLayout`, `FatFormat`, `FormattedDisk` | what the FAT specification says is where on a disk and how it is written, and that the system reads back what has been written |
| `PathParser`, `FileTable` | paths as lists in blocks of the heap, and the table of open files |
| `TraceLog`, `TracedRun` | the doubly linked trace log in blocks of the heap with its scroll cursor, and what it has to say about a run |
| `Boot` | from a path on the disk to a finished, recorded run |
| `Gdt` | segment descriptors |

Objects whose methods update fields are classes, buffers are arrays, the kernel's linked lists are linked nodes. Every
method is proved against a function on values, and the promises are lemmas about these functions or invariants of the
classes. Where the code does not do what its name or a standard says, the model keeps the code, a lemma states for all
inputs exactly when it does, and, where an input makes it plain, another lemma gives one:

* `heap_get_start_block` reports a trailing free run that is too short as a success (`HeapTable.SearchIsRight`).
* A size above 2^32 - 4096 is rounded up to no blocks at all (`Heap.BlocksCoverSize`).
* A read of a file that does not start at the start of a cluster runs over the ends of clusters, because the offset in
  the cluster is not subtracted from what is left of it (`FatVolume.ReadIsFlatExactly`). The image of a cartridge is
  always read like this, from position 16: it is right exactly if the file is not fragmented (`Boot.ImageIsReadRight`).
* The driver stops at the entries 0xFF0, 0xFF6 and 0xFF7, which on FAT16 are cluster numbers (0xFF7 is the bad mark of
  FAT12), and not at the bad mark 0xFFF7 and the end marks 0xFFF9 to 0xFFFE: a chain that the standard allows is read to
  its end if and only if it has none of these (`FatVolume.StandardChainIsWhole`).
* A deleted directory entry in front of others hides as many of the last ones (`FatDirectory.AllLiveSeen`,
  `FatDirectory.DeletedEntryHides`).
* `fopen` never gives back the blocks of the path that it parses (`FileTable.OpenThenClose`).
* Descriptor 512 is handed out but accepted by no operation (`FileTable.OpenThenClose`, `FileTable.LastSlotIsLost`).
* Eviction from the trace log does not move the cursor, and the heap hands out the block of an evicted entry again at
  once. A cursor that has not been moved is on the newest entry after the 258th addition; scrolling down from there leads
  to no entry (`TraceLog.TakesEvictedBlock`, `TraceLog.TraceLog.CursorDistance`, `TraceLog.TraceLog.UnmovedCursor`).
* The GDT encoder panics at some limits that eight bytes can hold (`Gdt.AcceptedAreRepresentable`).
* V after ADC and SBC, N after CMP, the carry of LSR A, DEY, the write-back of ORA, EOR and AND, pointers that begin at the
  end of a page, and the flags that BRK pushes and sets (`CpuDeviations`, `StepAgreement.StepIs6502`); the cost of BVC and
  BCC (`OpcodeTable.TableIsTimed`).
* Two comments in the switch are swapped: opcode 0x48 pushes A and 0x68 pulls it. The model follows the code.

Standards are cited by their own names: the FAT specification 1.03 ("FAT Data Structure", "FAT Directory Structure") and
the Intel SDM, volume 3A, sections 3.4.5 and 4.3, and the "MCS6500 Microcomputer Family Programming Manual".

## Model

| member | source | states |
|---|---|---|
| OpcodeTable.TableIsRegular | src/emulator/CPU/opcode_table.c:9-265 | every one of the 256 entries costs 2 to 8 cycles, or 0 if and only if it is a KIL, and is as long as its mode has operand bytes (TAS excepted) |
| OpcodeTable.TableIsTimed | src/emulator/CPU/opcode_table.c:9-265 | every documented instruction has the base cycles of the programming manual, by mode and kind, if and only if it is not BVC or BCC, which cost one more |
| Emulator.SwitchAgreesWithTable | src/emulator/CPU/emulator.c:45-640 | every case of the switch carries out the mnemonic, in the addressing mode, that the table has for its opcode |
| Emulator.CasesCoverSwitch | src/emulator/CPU/emulator.c:45-640 | the groups of cases are exactly the opcodes that have a case |
| Emulator.Emulator.Switch | src/emulator/CPU/emulator.c:45-640 | the flat switch over the emulator's fields does what the table-driven machine does for the opcode's entry; an opcode without a case does nothing |
| Emulator.Emulator.EmulateCPU | src/emulator/CPU/emulator.c:27-647 | one call of emulate_CPU on the fields and the memory arrays is one step of the table-driven machine, and one new entry in the log: it says A, X, Y, SP, PC, cycles and the bits of the status register as they were before the call, and has the opcode and operand bytes that the step reads |
| Emulator.Emulator.Run | src/emulator/CPU/emulator.c:649-656 | the loop of emu_run terminates from every state and ends where the machine's run ends; the log then has exactly one entry more for every instruction of the run, each with the registers, the cycles and the bytes of its instruction |
| Emulator.Emulator.constructor | src/emulator/CPU/emulator.c:17-25 | power-on state for an image: A, X, Y and RAM zeroed, SP 0xFD, 8 cycles, interrupts disabled, the image as ROM, and the program counter is the word at addresses 0xFFFC and 0xFFFD; the log is left alone |
| CpuRun.ResetVector | src/emulator/CPU/emulator.c:725-743 | the same by the memory map: after reset the image fills 0x8000 to 0xFFFF, everything below reads 0, and the first instruction is where the vector at 0xFFFC points |
| StepAgreement.StepIs6502 | src/emulator/CPU/emulator.c:45-647 | for every opcode that has a case and every state: registers, flags, program counter and memory after a step are those of the 6502 programming manual, if and only if it is not: an ADC of two negative numbers, an SBC of a negative from a non-negative one, a comparison whose difference is -128 to -1, an LSR A of an even number with the carry set, a DEY, an ORA, EOR or AND that changes its memory operand, a BRK without I and both unused bits set, or a JMP or STA whose pointer begins at the end of a page and that ends up elsewhere by it |
| StepEffects.StepCost | src/emulator/CPU/emulator.c:646 | a step costs the base cycles of the manual, one for a branch that is taken, and one too many for BVC and BCC |
| StepEffects.StepRest | src/emulator/CPU/emulator.c:48-50 | only opcode 0x02 halts, and only PLP and RTI change the two unused bits of the status register |
| StepEffects.SkippedStep | src/emulator/CPU/emulator.c:638-640 | an opcode without a case moves on by one byte and changes nothing |
| StepEffects.CompareAndBranch | src/emulator/CPU/emulator.c:954-958 | after CMP, CPX or CPY a BCC, BCS, BEQ or BNE branches exactly if the register is below, not below, equal to, or not equal to the operand, for all values and modes |
| CpuRun.StepProgress | src/emulator/CPU/emulator.c:638-647 | a step costs at most 8 cycles and never runs backwards; one that costs nothing moves on by one byte and is not at 0x800 |
| CpuRun.RunExits | src/emulator/CPU/emulator.c:649-656 | from every state a run ends, halted or with 1000 to 1007 cycles (its own count if it starts with more) |
| CpuRun.RunIsItsSteps | src/emulator/CPU/emulator.c:649-656 | a run is exactly its sequence of steps, each of them taken while not halted and with less than 1000 cycles gone |
| CpuRun.StraightLineStep | src/emulator/CPU/emulator.c:45-647 | for every implemented opcode but jumps, branches and interrupts the program counter moves by the table's length modulo 65536, the cycles by the table's cycles, and exactly opcode and operand bytes are logged |
| CpuRun.AtMostTwoOperandsLogged | src/emulator/CPU/tracelogger.c:59-66 | no instruction logs more than two operand bytes; the emulator writes them through the log, whose two-byte buffer is therefore never overrun |
| TracedRun.RecordIsInstruction | src/emulator/CPU/tracelogger.c:59-66 | the opcode of every entry is the byte at its program counter; the operand bytes of all but jumps, branches and interrupts are the bytes behind it, as many as the table says, and then zeros |
| TracedRun.ControlOperands | src/emulator/CPU/emulator.c:254-269 | the operand bytes in the entries of branches and jumps are the bytes behind the opcode; RTS has the byte that it skips, BRK and RTI none |
| Cpu.FlagsRoundTrip | src/emulator/CPU/emulator.c:618-633 | pushing the status register and pulling it gives the same flags |
| CpuArithmetic.AdcSbcAreExact | src/emulator/CPU/emulator.c:913-938 | one ADC and one SBC: result, carry or borrow out, Z and N are exact |
| CpuArithmetic.MultiByteProgram | src/emulator/CPU/emulator.c:68-73 | the emulated LDA/ADC/STA (or SBC) program with n triples of zero-page operands computes result + 256^n * C' = X + Y + C (or result - 256^n * (1 - C') = X - Y - (1 - C)) for every n, if no result overwrites a later operand |
| CpuArithmetic.RolChainDoubles | src/emulator/CPU/emulator.c:888-898 | ROL upward over n distinct RAM cells doubles their number, carry in at the bottom and out at the top |
| CpuArithmetic.RorChainHalves | src/emulator/CPU/emulator.c:900-911 | ROR downward halves it, carry in at the top and out at the bottom |
| CpuArithmetic.RotateUpThenDown | src/emulator/CPU/emulator.c:888-911 | ROR downward after ROL upward restores the whole RAM and the carry |
| CpuArithmetic.AslRolDoubles | src/emulator/CPU/emulator.c:872-898 | ASL on the lowest cell and ROL on the others double the number, the top bit goes to the carry |
| CpuArithmetic.LsrRorHalves | src/emulator/CPU/emulator.c:880-911 | LSR on the highest cell and ROR on the others halve the number, the lowest bit goes to the carry |
| CpuStack.StepHolds | src/emulator/CPU/emulator.c:244-268 | a step that uses no TXS, has room to push and enough to pull, and stores into no live cell keeps page one equal to an abstract stack, with SP wrapping modulo 256 |
| CpuStack.RunHolds | src/emulator/CPU/emulator.c:699-723 | so does a run of any length |
| CpuStack.PrefixSurvives | src/emulator/CPU/emulator.c:699-723 | what lies below the depth that a run never leaves is unchanged |
| CpuStack.CallReturns | src/emulator/CPU/emulator.c:254-268 | every RTS resumes three bytes after its matching JSR, with SP and stack restored, whatever disciplined code ran in between |
| CpuStack.InterruptReturns | src/emulator/CPU/emulator.c:618-633 | every RTI restores the flags of its matching BRK and resumes two bytes after it |
| CpuDeviations.AdcOverflowFlag | src/emulator/CPU/emulator.c:917-920 | ADC's V is the signed overflow if and only if the operands are not both negative |
| CpuDeviations.SbcOverflowFlag | src/emulator/CPU/emulator.c:931-934 | SBC's V is the signed overflow if and only if it is not that A is non-negative and the operand negative |
| CpuDeviations.CompareNegativeFlag | src/emulator/CPU/emulator.c:957 | CMP's N is bit 7 of the difference if and only if the difference is not -128 to -1 |
| CpuDeviations.LsrAccumulatorCarry | src/emulator/CPU/emulator.c:391-399 | LSR A sets the carry right if and only if bit 0 is set or the carry was clear |
| CpuDeviations.DeyCountsX | src/emulator/CPU/emulator.c:299-304 | DEY does what DEX does, and never counts Y down |
| CpuDeviations.LogicOpsOverwriteMemory | src/emulator/CPU/emulator.c:448-455 | with a memory operand RAM stays as it is if and only if the operand is outside RAM or: ORA, all bits of A are set in it; EOR, A is 0; AND, all its bits are set in A |
| Bits.BitOfOperators | src/emulator/CPU/emulator.c:442-490 | every bit of a conjunction, disjunction and exclusive or |
| Heap.Heap.GetStartBlock | src/memory/heap/heap.c:95-121 | the scan returns the first fit; without a fit the start of the trailing free run, and -ENOMEM if the last block is taken |
| HeapTable.SearchIsRight | src/memory/heap/heap.c:95-121 | the scan is right if and only if a run fits or the last block is taken; a start that fits is the least one |
| HeapTable.ShortTrailingRunIsReported | src/memory/heap/heap.c:115-120 | a table in which a too short trailing run counts as success |
| Heap.Heap.Create | src/memory/heap/heap.c:48-69 | the heap is set up over an aligned range whose table has as many entries as it has blocks, and then is empty; else -EINVARG |
| Heap.Heap.Malloc | src/memory/heap/heap.c:215-219 | the same for a size in bytes |
| Heap.BlocksCoverSize | src/memory/heap/heap.c:71-78 | the blocks of an allocation cover its size, with less than a block to spare, if and only if the size is at most 2^32 - 4096; above that there are none |
| Heap.MallocThenFree | src/memory/heap/heap.c:215-232 | malloc and then free of the pointer restore the table byte for byte |
| Heap.MallocAmongLive | src/memory/heap/heap.c:215-219 | malloc among any live allocations: the address is that of a block, the bytes asked for lie in the heap and are no bytes of another live allocation, which all stay |
| Heap.FreeOfLive | src/memory/heap/heap.c:229-232 | free of the address of a live allocation removes just that one |
| HeapTable.DecodesToLive | src/memory/heap/heap.c:133-148 | the FIRST and HAS_NEXT flags decode to exactly the live allocations |
| HeapTable.FlagsOfEntry | src/memory/heap/heap.c:80-82 | the flags of a table entry as numbers: free if its lower four bits are 0, first of a run by bit 6, not the last by bit 7 |
| HeapTable.TakeRepresents | src/memory/heap/heap.c:133-148 | taking a free run adds it to the live allocations, disjoint from all others |
| HeapTable.FreeRepresents | src/memory/heap/heap.c:188-197 | freeing a live allocation removes just that one |
| HeapTable.FreePlusLive | src/memory/heap/heap.c:133-197 | free and live blocks add up to the whole table |
| HeapTable.HistoryRepresents | src/memory/heap/heap.c:133-232 | after any history of allocations and frees the flags decode to exactly the live, disjoint runs, and free plus live blocks equal the total |
| SingleBlocks.RepresentedIsClean | src/memory/heap/heap.c:133-197 | in a table of live allocations every free block has byte 0 |
| PageTables.MaskRecoversTable | src/memory/paging/paging.c:74-75 | masking a directory entry gives back its table's address, whatever the flag bits |
| PageTables.IndexesArePageNumber | src/memory/paging/paging.c:43-56 | the index pair of an aligned address is its page number in base 1024 |
| PageTables.PageNumberHasIndexes | src/memory/paging/paging.c:43-56 | every index pair belongs to an aligned address |
| PageTables.SetIsPointUpdate | src/memory/paging/paging.c:58-78 | setting an entry changes what is found for its page and for no other of the 2^20 |
| PageTables.SetsAreAMap | src/memory/paging/paging.c:58-78 | after any history of sets every page has the last value set for it, or what it had |
| Paging.Kernel.New4gb | src/memory/paging/paging.c:8-26 | 1024 tables, a directory and a chunk in distinct free blocks; the entry of every page is its address plus the flags, and that of every table its address, all of the flags, and the bit for writing; nothing else in memory changes |
| Paging.Kernel.Set | src/memory/paging/paging.c:58-78 | -EINVARG for an unaligned address, else the point update |
| Paging.Kernel.Free4gb | src/memory/paging/paging.c:80-89 | frees exactly the blocks of the address space |
| Paging.NewThenSets | src/memory/paging/paging.c:8-78 | after paging_new_4gb and any sequence of paging_set every page has the last value set for it, or its own address plus the flags; and this is how the processor's two-level walk translates every linear address, with presence and permissions |
| Paging.NewSpaceIsIdentity | src/memory/paging/paging.c:8-26 | in a new address space with present pages the processor translates every linear address to itself, writeable and open to the user as the flags say |
| PageTables.TranslateIsLookup | src/memory/paging/paging.c:58-78 | the walk of section 4.3 of the Intel SDM through directory and table finds what the entry looked up for the page says |
| Paging.NewSetFree | src/memory/paging/paging.c:8-89 | paging_new_4gb, any sets, and paging_free_4gb restore the heap's table byte for byte |
| Streamer.DiskStream.Read | src/disk/streamer.c:23-50 | copies exactly the disk's bytes from the position on, over any number of sectors, moves the position by as many, and reads every sector from that of the first byte to that of the byte after the last once, in order |
| Streamer.ReadInTwoParts | src/disk/streamer.c:23-50 | two consecutive reads leave what one longer read leaves |
| Streamer.SectorsOfRead | src/disk/streamer.c:24-47 | a read that ends at a sector's end goes on to the next sector, if only for no bytes |
| FatVolume.WalkOfChain | src/fs/fat/fat16.c:322-361 | walking n links from the start gives the n-th cluster, and fails behind the end |
| FatLayout.DataIsBehindRoot | src/fs/fat/fat16.c:188-227 | cluster 2 is at the first sector behind the root directory, which takes up whole sectors |
| FatLayout.ClustersAreDisjoint | src/fs/fat/fat16.c:288-290 | clusters do not overlap, and all lie behind the root directory |
| FatLayout.ClustersFollow | src/fs/fat/fat16.c:288-290 | every cluster is right behind the one before it |
| FatLayout.TablesAreInOrder | src/fs/fat/fat16.c:193 | the copies of the table lie behind the reserved sectors, apart from each other, and before the root directory |
| FatLayout.EntryIsInFirstTable | src/fs/fat/fat16.c:292-319 | the entry of every cluster that the table has room for is in the first copy, low byte first |
| FatLayout.ClustersFitVolume | src/fs/fat/fat16.c:39-54 | the number of clusters is the largest for which all of them are in the volume |
| FatFormat.EntryRoundTrip | src/fs/fat/fat16.c:296-319 | the entries of a table that has been written are read back |
| FatVolume.FollowsLinks | src/fs/fat/fat16.c:330-353 | for a volume with any number of clusters the driver follows an entry exactly if it is a link, but for two kinds: 0xFF0, 0xFF6 and 0xFF7 stop it even as cluster numbers, and what is no cluster number does not stop it unless it is 0, one of these, 0xFFF8 or 0xFFFF |
| FatVolume.StandardChainIsWhole | src/fs/fat/fat16.c:322-361 | a chain that the standard allows is walked to its end, and no further, if and only if it ends in 0xFFF8 or 0xFFFF and links to none of the clusters 0xFF0, 0xFF6 and 0xFF7 |
| FatVolume.ReadIsSinglePass | src/fs/fat/fat16.c:363-397 | looking every cluster up from the start again is the same as a single pass |
| FatVolume.ReadSucceeds | src/fs/fat/fat16.c:363-397 | a read succeeds if and only if the first byte that it takes of every cluster is in the file, and else is -EIO |
| FatVolume.OutcomeAt | src/fs/fat/fat16.c:374-378 | where every byte is taken from: cluster by cluster, always from the same remainder on |
| FatVolume.ReadIsFlatExactly | src/fs/fat/fat16.c:363-397 | inside a file a read takes exactly the file's bytes if and only if the offset is at the start of a cluster or all clusters that it touches lie one after the other |
| FatVolume.FlatReadReturnsFile | src/fs/fat/fat16.c:363-397 | and then returns bytes [offset, offset + total) of the concatenated clusters |
| FatVolume.MisalignedReadFails | src/fs/fat/fat16.c:378 | a file in clusters 2 and 4 of which bytes 511 and 512 are read wrong |
| FatVolume.MembersReturnFile | src/fs/fat/fat16.c:598-616 | several members that are each read flat are together the bytes of the file |
| FatVolume.EvenMembersAreFlat | src/fs/fat/fat16.c:598-616 | members that divide a cluster evenly, at a multiple of their size, are read flat from any chain |
| FatDirectory.NameRoundTrip | src/fs/fat/fat16.c:240-267 | decoding an 8.3 name gives back base and extension |
| FatFormat.DirEntryRoundTrip | src/fs/fat/fat16.c:61-74 | a directory entry written field by field is read back: name, kind, size, and the cluster exactly if all bits of its upper half are set in its lower half |
| FatDirectory.SameLetter | src/string/string.c:48-83 | two characters are the same up to case exactly if they are equal or the two cases of one of the 26 letters |
| FatDirectory.AllLiveSeen | src/fs/fat/fat16.c:147-186 | all entries that are not deleted are looked at if and only if no deleted one comes before one of them |
| FatDirectory.ResolveFindsPath | src/fs/fat/fat16.c:497-520 | the walk finds an entry if and only if the path leads to it, in directories with unique names in which no deleted entry comes before one that is not |
| FatDirectory.DeletedEntryHides | src/fs/fat/fat16.c:147-186 | a disk on which a path leads to a file that the walk does not find, because a deleted entry comes before it |
| Fat16.Mount | src/fs/fat/fat16.c:522-562 | a disk with the signature is mounted, and then with every set of well-formed directories whose root is its root directory; its volume has the fields of any boot sector that the disk starts with, written field by field; any other disk is refused with -EFSNOTUS |
| FatFormat.BootHolds | src/fs/fat/fat16.c:39-54 | the fields of a boot sector that is written in the order and widths of the specification are where the driver reads them |
| FormattedDisk.ReadBack | src/fs/file.c:135-259 | from a disk that is written by the FAT specification (boot sector, table, root directory, clusters) to the bytes: mounting it, opening a file of the root directory by its name in any case of letters, and reading gives back the bytes stored, for all fields and any chain of clusters |
| Fat16.FatPrivate.GetClusterForOffset | src/fs/fat/fat16.c:322-361 | the cluster of an offset, or -EIO if the chain ends before |
| Fat16.FatPrivate.ReadInternal | src/fs/fat/fat16.c:363-397 | status and bytes of a read, into the buffer and nowhere else |
| Fat16.FatPrivate.Read | src/fs/fat/fat16.c:598-616 | status, bytes and position of a read of several members; an error leaves the position |
| Fat16.FatPrivate.GetDirectoryEntry | src/fs/fat/fat16.c:497-520 | the item that the walk along a path finds |
| Fat16.FatPrivate.Open | src/fs/fat/fat16.c:564-596 | -ERDONLY for other modes than reading, -EIO if the path leads nowhere, else a descriptor at position 0 |
| Fat16.FileDescriptor.Seek | src/fs/fat/fat16.c:618-652 | offsets inside the file are taken from the start (mode 0) or added modulo 2^32 (mode 1); every error, and its code, leaves the position |
| Fat16.SeekStaysInFile | src/fs/fat/fat16.c:618-652 | a seek leaves the position in the file if and only if it is not an accepted step from the current position that reaches the end without wrapping |
| PathParser.ParseWritten | src/fs/pparser.c:91-125 | parsing a written path of at most 108 characters gives back its drive and its parts |
| PathParser.PartsAreProper | src/fs/pparser.c:38-57 | the parts found are non-empty and slash-free, and joined they are how the path starts |
| PathParser.PartsAreAll | src/fs/pparser.c:38-76 | and they are all: behind them is the end, or a slash and then the end or another slash |
| PathParser.ParseFails | src/fs/pparser.c:10-36 | a path is refused exactly if it has more than 108 characters or does not start with a digit, a colon and a slash |
| PathParser.Parse | src/fs/pparser.c:91-125 | no root for a path that is too long or badly formed; else the drive, the linked list of all parts, and the blocks taken for them |
| PathParser.Free | src/fs/pparser.c:79-88 | frees exactly the blocks of the list |
| PathParser.ParseThenFree | src/fs/pparser.c:79-125 | parsing any path and freeing the result restores the heap's table |
| FileTable.Files.Fopen | src/fs/file.c:135-192 | the lowest free descriptor for the entry that the path leads to, at position 0; 0 and no change of the table of descriptors for every failure; in both cases exactly the blocks of the parsed path, 1 + 2 for every part, stay taken |
| FileTable.OpenedOnlyForReading | src/fs/file.c:119-133 | nothing is opened in another mode than 'r', from another drive than 0, or for a path without a part |
| FileTable.Files.Fread | src/fs/file.c:194-211 | the driver's read on that descriptor; no other descriptor changes |
| FileTable.Files.Fseek | src/fs/file.c:213-223 | the driver's seek, with a negative offset taken modulo 2^32 |
| FileTable.Files.Fclose | src/fs/file.c:243-259 | the descriptor is free again; -EIO for one that is not usable |
| FileTable.OpenThenClose | src/fs/file.c:135-259 | closing what fopen returned restores the table of descriptors if and only if it is not descriptor 512, and never gives back the blocks of the path: 1 + 2 for every part fewer are free |
| FileTable.LastSlotIsLost | src/fs/file.c:92-94 | once slot 511 is taken no history of operations gives it back |
| FileTable.ReadFile | src/fs/file.c:135-259 | open, read from the start and close: the bytes are those of the file, for any chain of clusters |
| TraceLog.TraceLog.Add | src/emulator/CPU/tracelogger.c:20-57 | an entry in the least free block, at the end of the list; with 257 entries the first one's block is freed before; links stay inverse, head.prev and tail.next null, cursor and index stay |
| TraceLog.TakesEvictedBlock | src/emulator/CPU/tracelogger.c:20-57 | in a full log the new entry lies in the block of the evicted one if and only if no block below it is free; the heap's table is then what it was |
| TraceLog.TraceLog.ContentsAreLast | src/emulator/CPU/tracelogger.c:20-57 | the list says what the last min(n, 257) entries said, in order, and the length field is their number minus one |
| TraceLog.QuietStays | src/emulator/CPU/tracelogger.c:20-57 | while nothing but the log frees blocks, every entry lies in the block of the one 257 before it, and the cursor's address holds an entry of the list, with the cursor's index modulo 257 |
| TraceLog.TraceLog.CursorDistance | src/emulator/CPU/tracelogger.c:92-109 | then the cursor is on the entry that is (n - 1 - index) modulo 257 before the newest: there is no next entry if and only if this is 0, and the newest one is printed if and only if this is less than the window |
| TraceLog.TraceLog.UnmovedCursor | src/emulator/CPU/tracelogger.c:92-109 | then a cursor that has never been moved is, after n additions, on the entry whose number is the last multiple of 257 below n, and on the newest one if and only if n modulo 257 is 1 |
| TraceLog.TraceLog.TailSetOperand | src/emulator/CPU/tracelogger.c:59-66 | the first byte that is not 0 becomes the opcode, those after it operands |
| TraceLog.TraceLog.PrintEntries | src/emulator/CPU/tracelogger.c:245-254 | the walk prints min(25, length + 1) entries: those from the cursor's entry on, and the tail again and again once it has been reached |
| TraceLog.TraceLog.ScrollDown | src/emulator/CPU/tracelogger.c:256-262 | cursor and index move on by one while the index is below length - 24 |
| TraceLog.TraceLog.ScrollUp | src/emulator/CPU/tracelogger.c:264-270 | cursor and index move back by one unless the cursor is on the head |
| TraceLog.TraceLog.BeforeEviction | src/emulator/CPU/tracelogger.c:245-262 | before the first eviction the cursor is on the entry at its index, scrolling down always has a next entry, and the window never goes behind the tail |
| TraceLog.TraceLog.WindowIsDistinct | src/emulator/CPU/tracelogger.c:245-254 | the entries printed are all different if and only if the window does not go behind the tail, and the newest is among them if and only if it reaches the tail |
| Gdt.EncodeEntry | src/gdt/gdt.c:4-28 | the eight bytes of an accepted entry; a panic and no change for any other |
| Gdt.EncodeTable | src/gdt/gdt.c:30-34 | for a table of any length decoding gives back every entry, unless one makes it panic |
| Gdt.DecodeEncoded | src/gdt/gdt.c:4-28 | decoding base, limit with granularity, and type recovers every accepted entry |
| Gdt.AcceptedAreRepresentable | src/gdt/gdt.c:5-13 | an entry is accepted if and only if eight bytes can describe it and its limit is not above 65536, below 2^20 and not whole pages |
| Boot.ImageIsReadRight | src/emulator/CPU/emulator.c:731-733 | the cartridge image, read from position 16, is read right if and only if the clusters up to its end lie one after the other |
| Boot.LoadImage | src/emulator/CPU/emulator.c:725-735 | open, read the header, seek, read the image: what ends up in ROM, and the blocks of the path that stay taken |
| Boot.Start | src/emulator/CPU/emulator.c:725-743 | from a path on a FAT16 disk to a finished run: the log has an entry for every instruction and the last 257 of them are in its list; the first one says the registers after reset and the address that bytes 16 + 0x7FFC and 16 + 0x7FFD of the file make, if the image is read right; log and path share the kernel's heap |

## Left out

- Port I/O, ATA polling, interrupts, keyboard, timer and assembly: a disk is the byte at every position, and reading a sector always succeeds.
- The size of a sector in the boot sector is not read by the code, which takes 512 bytes.
- Decimal mode and the cycles for crossing a page: the emulator has neither, and the processor it is compared with has no decimal mode; `StepEffects.StepCost` gives the cycles.
- Printing: of `tracelog_print_entries` the model keeps which entries are printed, in which order.
- The bytes of the boot sector beyond the fields that the driver uses, and file status (`fat16_stat`, `fstat`).
- The table of filesystems and its function pointers: FAT16 is the only filesystem, and disk 0 the only disk.
- Opening, reading and seeking a directory as if it were a file: the driver then takes a directory for an entry; the methods require a file.
- `fat16_free_directory` and the items that the driver allocates on its way along a path: only blocks for page tables, for paths and for log entries are accounted for; those of descriptors, directories and the emulator's memories are not, so `TraceLog.QuietStays` holds for as long as nothing frees blocks below those of the log.
- Failing allocations outside the heap itself: the kernel does not test for most of them; `Paging.Kernel.New4gb`, `PathParser.Parse`, `FileTable.Files.Fopen` and `TraceLog.TraceLog.Add` require the free blocks that they use.
- `paging_switch`, `paging_map_to`, `paging_map_range`: loading a register, and a loop that stops at its first success and is not reached.
- `task.c`, `process.c`, `tss.c` and the picture unit: not part of the build.
- Debug tracking in `emulator_debug.c`: compiled off.
- The annotations of a log entry (addresses, read and written value): they are only printed.
- Positions on the disk are unbounded integers: the wrap-around of `int` for disks above 2 GB is not modelled, nor are positions before byte 0, which only a chain that links to cluster 1 can reach.
- The switch of `emulate_CPU` is split into one method for each group of cases, because one method for all is too large a proof; the cases are the same, and `Emulator.CasesCoverSwitch` says that none is missing.
- The order in which C evaluates the two calls of `bit_XOR_A` in ADC and SBC is taken from left to right; C leaves it open.
- Heap.Heap.MallocBlocks: requires that the request fits, is for no blocks, or is refused, because for a too short trailing run the code goes on to write behind its table.
- Heap.Heap.Malloc: requires the same, for the same reason.
- Fat16.FatPrivate.LoadDirectory: requires that the directory ends in its first cluster; the count of entries runs on physically, the read follows the chain.
- Fat16.FatPrivate.GetDirectoryEntry: requires that every directory on the way but the first has the next part, because the code does not test for a missing one, and that no part is "..", whose entry in a first-level directory has cluster 0.
- Fat16.FatPrivate.Read: requires that the position stays below 2^31, where the code's `int` offset would turn negative.
- TraceLog.TraceLog.PrintEntries: requires that the cursor's address holds an entry of the list, because the code would read a block that has been freed; TraceLog.QuietStays says when it always does.
- TraceLog.TraceLog.ScrollUp: requires the same.
- TraceLog.TraceLog.ScrollDown: requires the same, and a next entry when the index says that there is one, because the code would go on with a null cursor; TraceLog.TraceLog.CursorDistance says when there is one.
- TraceLog.TraceLog.Add: requires a free block unless the log is full; the code returns -ENOMEM for a failed allocation, after freeing address 0.
- Emulator.Emulator.EmulateCPU: requires a free block for the log's entry unless the log is full; the code does not test for a failed allocation and would write the bytes of the instruction into the entry before.
- Emulator.Emulator.Run: requires blocks for the entries that the log can still get, for the same reason.
- Heap.Heap.Free: requires an address that is not below the heap; for address 0 the code computes a negative block number and writes in front of its table.
- Paging.Kernel.Kzalloc: at most one block, in whole words, which is all that the paging code asks for; larger requests are those of Heap.Heap.Malloc.
- Fat16.Mount: requires that a boot sector with the signature has at least one sector in a cluster, by which the code divides, and that the root directory has an end.
- Fat16.FatPrivate.FindItemInDirectory: requires that a subdirectory with the name ends in its first cluster, as LoadDirectory does.
- Fat16.FatPrivate.Open: requires of the path what GetDirectoryEntry does, and so do FileTable.Files.Fopen and Boot.Start.
- FormattedDisk.ReadBack: the root directory has files only; for paths through subdirectories there is FatDirectory.ResolveFindsPath.
- Boot.Start: a file that cannot be opened leaves ROM zeroed in the code; only the start with a file is modelled.
