/** From a path to a recorded run: the emulator opens its cartridge file, reads 16 bytes of header and the
    32 KB image behind it, starts at the reset vector, and runs. */
module Boot {
  import opened Bits
  import opened Division
  import opened Status
  import opened Streamer
  import opened FatVolume
  import opened FatDirectory
  import opened Fat16
  import opened FileTable
  import Cpu
  import CpuRun
  import Emulator
  import HeapTable
  import SingleBlocks
  import Heap
  import PathParser
  import TraceLog
  import TracedRun

  const HEADER_BYTES := 0x10
  const READ: Name := [0x72]

  /** The image is read from behind the header, and so never from the start of a cluster: the read is right
      exactly if all clusters of the file up to the end of the image lie one after the other on the disk. */
  lemma ImageIsReadRight(v: Volume, cs: seq<int>)
    requires v.Valid() && IsChain(v, cs) && HEADER_BYTES + Cpu.ROM_SIZE <= |cs| * v.ClusterBytes()
    ensures var last := Quot(HEADER_BYTES + Cpu.ROM_SIZE - 1, v.ClusterBytes());
      last < |cs| && (ReadsFlat(v, cs, HEADER_BYTES, Cpu.ROM_SIZE) <==> Contiguous(cs, 0, last))
  {
    ClusterIsLarge(v);
    DividedSmall(HEADER_BYTES, v.ClusterBytes());
    hide Quot, Rem, ReadsFlat, IsChain, Volume.ClusterBytes;
    ReadIsFlatExactly(v, cs, HEADER_BYTES, Cpu.ROM_SIZE);
  }

  lemma ClusterIsLarge(v: Volume)
    requires v.Valid()
    ensures v.ClusterBytes() >= SECTOR_SIZE
  {
  }

  lemma OneMember(v: Volume, start: int, offset: nat, size: nat)
    requires v.Valid()
    ensures MembersOutcome(v, start, offset, size, 1) == ReadOutcome(v, start, offset, size)
  {
    hide ReadOutcome;
    assert MembersOutcome(v, start, offset, size, 0) == Outcome(0, []);
    assert offset + 0 * size == offset;
    assert [] + ReadOutcome(v, start, offset, size).positions == ReadOutcome(v, start, offset, size).positions;
  }

  lemma ReadWhole(v: Volume, cs: seq<int>, offset: nat, total: nat, before: seq<Byte>)
    requires v.Valid() && IsChain(v, cs) && 0 < total && offset + total <= |cs| * v.ClusterBytes() && |before| == total
    ensures var o := MembersOutcome(v, cs[0], offset, total, 1);
      && o == ReadOutcome(v, cs[0], offset, total) && o.status == 0
      && Overwrite(before, 0, BytesAt(v.disk, o.positions)) == BytesAt(v.disk, o.positions)
  {
    OneMember(v, cs[0], offset, total);
    ReadInFileSucceeds(v, cs, offset, total);
    OverwriteAll(before, BytesAt(v.disk, ReadOutcome(v, cs[0], offset, total).positions));
  }

  /** The file that the path leads to, and that a cartridge fits in. */
  ghost predicate IsCartridge(files: Files, dirs: Directories, path: Name, e: Entry, cs: seq<int>)
    reads files.slots, files.OpenFiles(), files.fat
  {
    && files.Valid(dirs) && files.fat != null && CanOpen(files.fat, dirs, path, READ)
    && Opened(files.fat, dirs, path, READ) == Some(e) && !IsSubdirectory(e)
    && (exists fd :: 1 <= fd < MAX_DESCRIPTORS && fd !in files.Descriptors())
    && files.fat.v.Valid() && IsChain(files.fat.v, cs) && cs[0] == FirstCluster(e)
    && HEADER_BYTES + Cpu.ROM_SIZE <= |cs| * files.fat.v.ClusterBytes()
  }

  /** The reads of emu_reset: the header, and then the image at the position behind it. */
  method LoadImage(heap: Heap.Heap, files: Files, path: Name, header: array<Byte>, rom: array<Byte>,
      ghost dirs: Directories,
      ghost e: Entry, ghost cs: seq<int>)
      returns (ghost blocks: set<nat>)
    requires IsCartridge(files, dirs, path, e, cs) && PathParser.HasPathBlocks(heap.entries[..], path)
    requires header.Length == HEADER_BYTES && rom.Length == Cpu.ROM_SIZE && header != rom
    requires header != heap.entries && rom != heap.entries
    modifies heap.entries, files.slots, files.fat.directoryStream, files.fat.clusterStream, files.fat.fatStream,
        header, rom
    ensures files.Valid(dirs)
    ensures SingleBlocks.Marked(old(heap.entries[..]), heap.entries[..], blocks)
    ensures |blocks| == PathParser.PathBlocks(path)
    ensures rom[..] == BytesAt(files.fat.v.disk, ReadOutcome(files.fat.v, cs[0], HEADER_BYTES, Cpu.ROM_SIZE).positions)
  {
    hide CanOpen, Opened, IsSubdirectory, IsChain, FirstCluster, ReadOutcome, Resolve, WellFormed, BytesAt,
        Files.Valid, MembersOutcome,
      Overwrite, Files.Descriptors, Files.FileOf, Step, FileSize, PathParser.HasPathBlocks, PathParser.PathBlocks,
        SingleBlocks.Marked;
    ghost var v := files.fat.v;
    var fd;
    fd, blocks := files.Fopen(heap, path, READ, dirs);
    ReadWhole(v, cs, 0, HEADER_BYTES, header[..]);
    var res := files.Fread(header, HEADER_BYTES, 1, fd, dirs);
    res := files.Fseek(fd, HEADER_BYTES, SEEK_SET, dirs);
    ReadWhole(v, cs, HEADER_BYTES, Cpu.ROM_SIZE, rom[..]);
    res := files.Fread(rom, Cpu.ROM_SIZE, 1, fd, dirs);
  }

  /** The log has these records, of which its list holds the last 257, or all; the cursor, which nobody has moved, is on
      the first entry, or on the one that lies in its block since then. */
  ghost predicate HasRecords(log: TraceLog.TraceLog, records: seq<TraceLog.Record>)
    reads log, log.memory, log.heap, log.heap.entries, log.tail
  {
    && log.Valid() && log.History() == records && records != []
    && log.Contents() == TraceLog.Last(records, TraceLog.Min(|records|, TraceLog.CYCLE))
    && log.CursorAt(TraceLog.LastOfCycle(|records|))
  }

  /** What is recorded of the first instruction: the registers after reset, and the address at the reset vector. */
  predicate StartsAt(records: seq<TraceLog.Record>, low: Byte, high: Byte) {
    records != [] && records[0].snapshot == TraceLog.Snapshot(0, 0, 0, 4, 0xFD, low as int + 256 * high as int, 8)
  }

  /** The emulator has run from the reset of an image, and the log has an entry for every instruction. */
  ghost predicate HasRun(emu: Emulator.Emulator, image: seq<Byte>)
    reads emu, emu.RAM, emu.ROM, emu.log, emu.log.memory, emu.log.heap, emu.log.heap.entries, emu.log.tail
  {
    && |image| == Cpu.ROM_SIZE && emu.Valid() && emu.State() == CpuRun.EmuRun(CpuRun.Reset(image))
    && HasRecords(emu.log, TracedRun.RecordsOf(CpuRun.Visited(CpuRun.Reset(image))))
    && StartsAt(emu.log.History(), image[0x7FFC], image[0x7FFD])
  }

  lemma ResetRuns(image: seq<Byte>)
    requires |image| == Cpu.ROM_SIZE
    ensures CpuRun.Visited(CpuRun.Reset(image)) != []
    ensures StartsAt(TracedRun.RecordsOf(CpuRun.Visited(CpuRun.Reset(image))), image[0x7FFC], image[0x7FFD])
  {
    hide CpuRun.Reset, Cpu.Step, CpuRun.EmuRun, Cpu.Flags.ToByte;
    var s := CpuRun.Reset(image);
    CpuRun.ResetVector(image);
    TracedRun.VisitedFrom(s);
    ResetFlags(image);
    var records := TracedRun.RecordsOf(CpuRun.Visited(s));
    hide CpuRun.Visited, TracedRun.RecordsOf;
    assert CpuRun.Visited(s)[0] == s && records[0] == TracedRun.RecordOf(s);
    hide TracedRun.Padded;
  }

  lemma ResetFlags(image: seq<Byte>)
    requires |image| == Cpu.ROM_SIZE
    ensures CpuRun.Reset(image).flags.ToByte() == 4
  {
    CpuRun.ResetVector(image);
    hide CpuRun.Reset, Cpu.Flags.ToByte;
    Cpu.ByteIsSum(CpuRun.Reset(image).flags);
  }

  /** The emulator after reset, with an empty log. */
  method PowerOn(heap: Heap.Heap, memory: seq<TraceLog.Entry>, image: seq<Byte>) returns (emu: Emulator.Emulator)
    requires |image| == Cpu.ROM_SIZE
    requires |memory| == heap.entries.Length && TraceLog.Placed(memory) && TraceLog.SuppliedIn(heap.entries[..], 0)
    ensures fresh(emu) && fresh(emu.RAM) && fresh(emu.log) && emu.log.heap == heap && emu.log.memory == memory
    ensures emu.Valid() && emu.Apart() && emu.log.Valid() && emu.log.Supplied() && emu.log.Quiet()
    ensures emu.log.curSelectedIndex == 0 && emu.log.History() == [] && emu.State() == CpuRun.Reset(image)
  {
    hide TraceLog.SuppliedIn, TraceLog.Placed;
    var log := new TraceLog.TraceLog(heap, memory);
    log.NewIsQuiet();
    hide TraceLog.TraceLog.Valid, TraceLog.TraceLog.Quiet, CpuRun.Reset;
    emu := new Emulator.Emulator(image, log);
    ResetLogsNothing(image);
  }

  lemma ResetLogsNothing(image: seq<Byte>)
    requires |image| == Cpu.ROM_SIZE
    ensures CpuRun.Reset(image).(loggedOpcode := 0, operands := []) == CpuRun.Reset(image)
  {
  }

  method RunImage(heap: Heap.Heap, memory: seq<TraceLog.Entry>, rom: array<Byte>) returns (emu: Emulator.Emulator)
    requires rom.Length == Cpu.ROM_SIZE
    requires |memory| == heap.entries.Length && TraceLog.Placed(memory) && TraceLog.SuppliedIn(heap.entries[..], 0)
    modifies heap.entries, memory
    ensures HasRun(emu, old(rom[..]))
  {
    hide CpuRun.EmuRun, CpuRun.Visited, TracedRun.RecordsOf, CpuRun.Reset, TraceLog.SuppliedIn, TraceLog.Placed,
        HasRecords,
      TraceLog.TraceLog.Valid, TraceLog.TraceLog.Quiet, TraceLog.TraceLog.Supplied, TraceLog.TraceLog.History,
      Emulator.Emulator.State;
    var image := rom[..];
    ResetRuns(image);
    emu := PowerOn(heap, memory, image);
    emu.Run();
    Recorded(emu.log, TracedRun.RecordsOf(CpuRun.Visited(CpuRun.Reset(image))));
  }

  lemma Recorded(log: TraceLog.TraceLog, records: seq<TraceLog.Record>)
    requires log.Valid() && log.Quiet() && log.curSelectedIndex == 0 && log.History() == records && records != []
    ensures HasRecords(log, records)
  {
    hide TraceLog.TraceLog.Valid, TraceLog.TraceLog.Quiet, TraceLog.TraceLog.CursorAt, TraceLog.Last;
    log.ContentsAreLast();
    log.UnmovedCursor();
  }

  /** The image that emu_reset reads. */
  function ImageRead(v: Volume, cs: seq<int>): seq<Byte>
    requires v.Valid() && cs != []
  {
    BytesAt(v.disk, ReadOutcome(v, cs[0], HEADER_BYTES, Cpu.ROM_SIZE).positions)
  }

  /** The heap has the blocks of the path, which stay taken, and those of 257 entries of the log. */
  ghost predicate HasBlocks(t: HeapTable.Table, path: Name) {
    SingleBlocks.Clean(t) && HeapTable.CountFree(t, 0) >= PathParser.PathBlocks(path) + TraceLog.CYCLE
  }

  lemma BlocksAreLeft(t: HeapTable.Table, u: HeapTable.Table, path: Name, blocks: set<nat>)
    requires HasBlocks(t, path) && SingleBlocks.Marked(t, u, blocks) && |blocks| == PathParser.PathBlocks(path)
    ensures TraceLog.SuppliedIn(u, 0)
  {
    hide SingleBlocks.Clean, SingleBlocks.Marked, PathParser.PathBlocks;
    SingleBlocks.MarkedCounts(t, u, blocks);
    SingleBlocks.MarkedIsClean(t, u, blocks);
  }

  /** emu_init and emu_reset for a file that can be opened. If the image is read right, that is if the clusters of
      the cartridge lie one after the other, the run is that of the image in the file. */
  method Start(heap: Heap.Heap, memory: seq<TraceLog.Entry>, files: Files, path: Name, header: array<Byte>,
      rom: array<Byte>, ghost dirs: Directories, ghost e: Entry, ghost cs: seq<int>)
      returns (emu: Emulator.Emulator)
    requires IsCartridge(files, dirs, path, e, cs) && HasBlocks(heap.entries[..], path)
    requires |memory| == heap.entries.Length && TraceLog.Placed(memory)
    requires header.Length == HEADER_BYTES && rom.Length == Cpu.ROM_SIZE && header != rom
    requires header != heap.entries && rom != heap.entries
    modifies heap.entries, memory, files.slots, files.fat.directoryStream, files.fat.clusterStream, files.fat.fatStream,
      header, rom
    ensures files.Valid(dirs) && HasRun(emu, ImageRead(files.fat.v, cs))
    ensures ReadsFlat(files.fat.v, cs, HEADER_BYTES, Cpu.ROM_SIZE) ==>
      && |FileBytes(files.fat.v, cs)| >= HEADER_BYTES + Cpu.ROM_SIZE
      && HasRun(emu, FileBytes(files.fat.v, cs)[16..16 + 0x8000])
      && StartsAt(emu.log.History(), FileBytes(files.fat.v, cs)[16 + 0x7FFC], FileBytes(files.fat.v, cs)[16 + 0x7FFD])
  {
    hide IsChain, ReadOutcome, ReadsFlat, BytesAt, FileBytes, HasRun, StartsAt, Files.Valid, CanOpen, Opened,
        IsSubdirectory,
        FirstCluster, SingleBlocks.Marked, TraceLog.SuppliedIn, PathParser.PathBlocks;
    ImageIsInFile(files.fat.v, cs);
    ghost var t := heap.entries[..];
    ghost var blocks := LoadImage(heap, files, path, header, rom, dirs, e, cs);
    BlocksAreLeft(t, heap.entries[..], path, blocks);
    emu := RunImage(heap, memory, rom);
    if ReadsFlat(files.fat.v, cs, HEADER_BYTES, Cpu.ROM_SIZE) {
      RunStarts(emu, FileBytes(files.fat.v, cs));
    }
  }

  lemma RunBegins(emu: Emulator.Emulator, image: seq<Byte>)
    requires HasRun(emu, image)
    ensures |image| == Cpu.ROM_SIZE && StartsAt(emu.log.History(), image[0x7FFC], image[0x7FFD])
  {
    hide HasRecords, StartsAt;
  }

  /** Where the run of an image in a file starts. */
  lemma RunStarts(emu: Emulator.Emulator, bytes: seq<Byte>)
    requires |bytes| >= HEADER_BYTES + Cpu.ROM_SIZE && HasRun(emu, bytes[HEADER_BYTES..HEADER_BYTES + Cpu.ROM_SIZE])
    ensures StartsAt(emu.log.History(), bytes[16 + 0x7FFC], bytes[16 + 0x7FFD])
  {
    hide HasRun, StartsAt, TraceLog.TraceLog.History;
    var image := bytes[HEADER_BYTES..HEADER_BYTES + Cpu.ROM_SIZE];
    RunBegins(emu, image);
    assert image[0x7FFC] == bytes[16 + 0x7FFC] && image[0x7FFD] == bytes[16 + 0x7FFD];
  }

  lemma ImageIsInFile(v: Volume, cs: seq<int>)
    requires v.Valid() && IsChain(v, cs) && HEADER_BYTES + Cpu.ROM_SIZE <= |cs| * v.ClusterBytes()
    ensures |FileBytes(v, cs)| >= HEADER_BYTES + Cpu.ROM_SIZE
    ensures ReadsFlat(v, cs, HEADER_BYTES, Cpu.ROM_SIZE) ==>
      ImageRead(v, cs) == FileBytes(v, cs)[HEADER_BYTES..HEADER_BYTES + Cpu.ROM_SIZE]
  {
    hide FileBytes, ReadOutcome, ReadsFlat, BytesAt, Volume.ClusterBytes;
    FileBytesAreFlat(v, cs);
    if ReadsFlat(v, cs, HEADER_BYTES, Cpu.ROM_SIZE) {
      FlatReadReturnsFile(v, cs, HEADER_BYTES, Cpu.ROM_SIZE);
    }
  }
}
